/** The handful of Python string operations the scripts rely on: `str.isspace`,
    `str.strip()`, `str.split()`, `str.split(sep)`, `sep.join(...)`, `str(int)`
    and base-10 `int(str)`. Strings are sequences of Unicode scalar values, as
    Python's are. */
module Text {

  import opened Errors

  /** `c.isspace()` in CPython: the Unicode characters of bidirectional class
      WS, B or S, or general category Zs. */
  predicate IsSpace(c: char) {
    var n := c as int;
    || 9 <= n <= 13
    || 28 <= n <= 32
    || n == 0x85 || n == 0xA0 || n == 0x1680
    || 0x2000 <= n <= 0x200A
    || n == 0x2028 || n == 0x2029 || n == 0x202F || n == 0x205F || n == 0x3000
  }

  predicate NoSpace(s: string) {
    forall i :: 0 <= i < |s| ==> !IsSpace(s[i])
  }

  predicate AllSpace(s: string) {
    forall i :: 0 <= i < |s| ==> IsSpace(s[i])
  }

  /** `s.lstrip()`. */
  function TrimLeft(s: string): string
  {
    if |s| > 0 && IsSpace(s[0]) then TrimLeft(s[1..]) else s
  }

  /** `s.lstrip()` is the suffix left after every leading whitespace character is cut. */
  lemma {:induction false} TrimLeftSpec(s: string)
    ensures |TrimLeft(s)| <= |s| && TrimLeft(s) == s[|s| - |TrimLeft(s)|..]
    ensures TrimLeft(s) == [] || !IsSpace(TrimLeft(s)[0])
    ensures forall i :: 0 <= i < |s| - |TrimLeft(s)| ==> IsSpace(s[i])
  {
    if |s| > 0 && IsSpace(s[0]) {
      TrimLeftSpec(s[1..]);
    }
  }

  /** `s.rstrip()`. */
  function TrimRight(s: string): string
  {
    if |s| > 0 && IsSpace(s[|s| - 1]) then TrimRight(s[..|s| - 1]) else s
  }

  /** `s.rstrip()` is the prefix left after every trailing whitespace character is cut. */
  lemma {:induction false} TrimRightSpec(s: string)
    ensures |TrimRight(s)| <= |s| && TrimRight(s) == s[..|TrimRight(s)|]
    ensures TrimRight(s) == [] || !IsSpace(TrimRight(s)[|TrimRight(s)| - 1])
    ensures forall i :: |TrimRight(s)| <= i < |s| ==> IsSpace(s[i])
  {
    if |s| > 0 && IsSpace(s[|s| - 1]) {
      TrimRightSpec(s[..|s| - 1]);
    }
  }

  /** `s.strip()`. */
  function Strip(s: string): string
  {
    TrimRight(TrimLeft(s))
  }

  /** `s.strip()` is a slice of `s`: what is left between the whitespace it
      cuts from the front and from the back. */
  lemma StripSlice(s: string)
    ensures |Strip(s)| <= |TrimLeft(s)| <= |s|
    ensures Strip(s) == s[|s| - |TrimLeft(s)|..|s| - |TrimLeft(s)| + |Strip(s)|]
  {
    var t := TrimLeft(s);
    TrimLeftSuffix(s);
    TrimRightPrefix(t);
    SliceOfSuffix(s, |s| - |t|, |Strip(s)|);
  }

  /** `s.lstrip()` is a suffix of `s`. */
  lemma {:induction false} TrimLeftSuffix(s: string)
    ensures |TrimLeft(s)| <= |s| && TrimLeft(s) == s[|s| - |TrimLeft(s)|..]
  {
    if |s| > 0 && IsSpace(s[0]) {
      TrimLeftSuffix(s[1..]);
    }
  }

  /** `s.rstrip()` is a prefix of `s`. */
  lemma {:induction false} TrimRightPrefix(s: string)
    ensures |TrimRight(s)| <= |s| && TrimRight(s) == s[..|TrimRight(s)|]
  {
    if |s| > 0 && IsSpace(s[|s| - 1]) {
      TrimRightPrefix(s[..|s| - 1]);
    }
  }

  /** A prefix of a suffix is a slice. */
  lemma SliceOfSuffix(s: string, a: nat, n: nat)
    requires a + n <= |s|
    ensures s[a..][..n] == s[a..a + n]
  {
  }

  /** `s.strip()` leaves no whitespace at either end, and leaves nothing
      exactly when every character is whitespace. */
  lemma StripEnds(s: string)
    ensures Strip(s) != [] ==> !IsSpace(Strip(s)[0]) && !IsSpace(Strip(s)[|Strip(s)| - 1])
    ensures Strip(s) == [] <==> AllSpace(s)
  {
    var t := TrimLeft(s);
    TrimLeftSpec(s);
    TrimRightSpec(t);
    var r := TrimRight(t);
    if r != [] {
      assert r[0] == t[0];
    }
    if t == [] {
      assert forall i :: 0 <= i < |s| ==> IsSpace(s[i]);
    } else {
      var a := |s| - |t|;
      assert s[a] == t[0];
    }
  }

  /** A string that `str.strip()` leaves unchanged. */
  lemma StripUnchanged(s: string)
    requires s == [] || (!IsSpace(s[0]) && !IsSpace(s[|s| - 1]))
    ensures Strip(s) == s
  {
  }

  /** The longest prefix of `s` containing no whitespace. */
  function Word(s: string): (w: string)
    ensures |w| <= |s| && w == s[..|w|] && NoSpace(w)
    ensures |w| == |s| || IsSpace(s[|w|])
    ensures |s| > 0 && !IsSpace(s[0]) ==> |w| > 0
  {
    if |s| == 0 || IsSpace(s[0]) then [] else [s[0]] + Word(s[1..])
  }

  /** `s.split()` with no argument: the maximal runs of non-whitespace, in order;
      leading, trailing and repeated whitespace produce no empty fields. */
  function Split(s: string): seq<string>
    decreases |s|
  {
    var t := TrimLeft(s);
    TrimLeftSpec(s);
    if t == [] then []
    else
      var w := Word(t);
      [w] + Split(t[|w|..])
  }

  /** Every field of `s.split()` is non-empty and free of whitespace. */
  lemma {:induction false} SplitFields(s: string)
    ensures forall k :: 0 <= k < |Split(s)| ==> Split(s)[k] != [] && NoSpace(Split(s)[k])
    decreases |s|
  {
    var t := TrimLeft(s);
    TrimLeftSpec(s);
    if t != [] {
      var w := Word(t);
      SplitFields(t[|w|..]);
    }
  }

  /** A line yields no field exactly when it is blank. */
  lemma SplitEmpty(s: string)
    ensures Split(s) == [] <==> AllSpace(s)
  {
    TrimLeftSpec(s);
    var t := TrimLeft(s);
    if t != [] {
      assert !IsSpace(s[|s| - |t|]);
    }
  }

  /** The fields of a line: `line.strip().split()`. */
  function Fields(line: string): seq<string> {
    Split(Strip(line))
  }

  /** `sep.join(parts)` for a one-character separator. */
  function Join(parts: seq<string>, sep: char): (r: string)
  {
    if |parts| == 0 then []
    else if |parts| == 1 then parts[0]
    else parts[0] + [sep] + Join(parts[1..], sep)
  }

  /** The fields of every line of a file, line by line. */
  function FieldRows(lines: seq<string>): seq<seq<string>> {
    if |lines| == 0 then []
    else FieldRows(lines[..|lines| - 1]) + [Fields(lines[|lines| - 1])]
  }

  /** Row `i` holds the fields of line `i`. */
  lemma {:induction false} FieldRowsAt(lines: seq<string>, i: nat)
    requires i < |lines|
    ensures |FieldRows(lines)| == |lines|
    ensures FieldRows(lines)[i] == Fields(lines[i])
  {
    var n := |lines| - 1;
    FieldRowsLength(lines[..n]);
    if i < n {
      FieldRowsAt(lines[..n], i);
    }
  }

  /** There is one row per line. */
  lemma {:induction false} FieldRowsLength(lines: seq<string>)
    ensures |FieldRows(lines)| == |lines|
  {
    if |lines| > 0 {
      FieldRowsLength(lines[..|lines| - 1]);
    }
  }

  /** The rows of a file are made of fields of `str.split()`: non-empty and
      free of whitespace. */
  lemma {:induction false} FieldRowsClean(lines: seq<string>)
    ensures forall i, k :: 0 <= i < |FieldRows(lines)| && 0 <= k < |FieldRows(lines)[i]| ==>
      FieldRows(lines)[i][k] != [] && NoSpace(FieldRows(lines)[i][k])
  {
    if |lines| > 0 {
      var n := |lines| - 1;
      FieldRowsClean(lines[..n]);
      SplitFields(Strip(lines[n]));
      var before := FieldRows(lines[..n]);
      assert forall i :: 0 <= i < |before| ==> FieldRows(lines)[i] == before[i];
    }
  }

  /** `s.split(sep)` for a one-character separator: the fields between the
      occurrences of `sep`, empty ones included. */
  function SplitOn(s: string, sep: char): (r: seq<string>)
    ensures |r| >= 1
  {
    if |s| == 0 then [[]]
    else
      var rest := SplitOn(s[1..], sep);
      if s[0] == sep then
        [[]] + rest
      else
        [[s[0]] + rest[0]] + rest[1..]
  }

  /** The pieces of `s.split(sep)` hold no separator. */
  lemma {:induction false} SplitOnPieces(s: string, sep: char)
    ensures forall k :: 0 <= k < |SplitOn(s, sep)| ==> sep !in SplitOn(s, sep)[k]
  {
    if |s| > 0 {
      var rest := SplitOn(s[1..], sep);
      SplitOnPieces(s[1..], sep);
      var r := SplitOn(s, sep);
      if s[0] == sep {
        assert forall k :: 1 <= k < |r| ==> r[k] == rest[k - 1];
      } else {
        assert forall k :: 1 <= k < |r| ==> r[k] == rest[k];
      }
    }
  }

  /** `sep.join(s.split(sep)) == s`. */
  lemma {:induction false} SplitOnJoin(s: string, sep: char)
    ensures Join(SplitOn(s, sep), sep) == s
  {
    if |s| > 0 {
      var tail := s[1..];
      var rest := SplitOn(tail, sep);
      SplitOnJoin(tail, sep);
      var r := SplitOn(s, sep);
      if s[0] == sep {
        assert r == [[]] + rest;
        assert r[1..] == rest;
        assert Join(r, sep) == [] + [sep] + Join(rest, sep);
      } else {
        var head := [s[0]] + rest[0];
        assert r == [head] + rest[1..];
        if |rest| == 1 {
          assert r == [head];
          assert Join(rest, sep) == rest[0];
        } else {
          var others := rest[1..];
          assert r[1..] == others;
          assert Join(r, sep) == head + [sep] + Join(others, sep);
          assert tail == rest[0] + [sep] + Join(others, sep);
        }
      }
      assert s == [s[0]] + tail;
    }
  }

  /** The columns of a line: `line.strip().split('\t')`. */
  function TabFields(line: string): seq<string> {
    SplitOn(Strip(line), '\t')
  }

  /** The columns of every line of a file, line by line. */
  function ColumnRows(lines: seq<string>): seq<seq<string>> {
    if |lines| == 0 then []
    else ColumnRows(lines[..|lines| - 1]) + [TabFields(lines[|lines| - 1])]
  }

  /** Row `i` holds the columns of line `i`, and there is one row per line. */
  lemma {:induction false} ColumnRowsAt(lines: seq<string>, i: nat)
    requires i < |lines|
    ensures |ColumnRows(lines)| == |lines|
    ensures ColumnRows(lines)[i] == TabFields(lines[i])
  {
    var n := |lines| - 1;
    ColumnRowsLength(lines[..n]);
    if i < n {
      ColumnRowsAt(lines[..n], i);
    }
  }

  /** There is one row per line. */
  lemma {:induction false} ColumnRowsLength(lines: seq<string>)
    ensures |ColumnRows(lines)| == |lines|
  {
    if |lines| > 0 {
      ColumnRowsLength(lines[..|lines| - 1]);
    }
  }

  /** `str.split(sep)` is the unique way of cutting `s` into separator-free
      pieces that `sep.join` puts back together. */
  lemma {:induction false} SplitOnUnique(s: string, sep: char, parts: seq<string>)
    requires |parts| >= 1
    requires forall k :: 0 <= k < |parts| ==> sep !in parts[k]
    requires Join(parts, sep) == s
    ensures SplitOn(s, sep) == parts
    decreases |s|, |parts[0]|
  {
    if |s| == 0 {
    } else if |parts[0]| == 0 {
      assert |parts| > 1;
      assert Join(parts, sep) == [sep] + Join(parts[1..], sep);
      assert s[0] == sep && s[1..] == Join(parts[1..], sep);
      SplitOnUnique(s[1..], sep, parts[1..]);
      assert parts == [[]] + parts[1..];
    } else {
      var head := parts[0][1..];
      var shorter := [head] + parts[1..];
      assert parts[0] == [parts[0][0]] + head;
      assert sep !in head;
      assert Join(parts, sep) == [parts[0][0]] + Join(shorter, sep) by {
        if |parts| == 1 {
          assert Join(shorter, sep) == head;
        } else {
          assert shorter[1..] == parts[1..];
          assert Join(shorter, sep) == head + [sep] + Join(parts[1..], sep);
        }
      }
      assert s[0] == parts[0][0] && s[0] != sep;
      assert s[1..] == Join(shorter, sep);
      forall k | 0 <= k < |shorter| ensures sep !in shorter[k] {
        if k > 0 { assert shorter[k] == parts[k]; }
      }
      SplitOnUnique(s[1..], sep, shorter);
    }
  }

  /** Whitespace never appears inside a field produced by `str.split()`, and
      joining such fields with one space and splitting again gives them back. */
  lemma {:induction false} SplitJoin(parts: seq<string>)
    requires forall k :: 0 <= k < |parts| ==> parts[k] != [] && NoSpace(parts[k])
    ensures Split(Join(parts, ' ')) == parts
  {
    if |parts| > 0 {
      var s := Join(parts, ' ');
      var rest := if |parts| == 1 then [] else [' '] + Join(parts[1..], ' ');
      assert s == parts[0] + rest;
      assert TrimLeft(s) == s;
      WordOfConcat(parts[0], rest);
      assert s[|parts[0]|..] == rest;
      if |parts| > 1 {
        SplitJoin(parts[1..]);
        SplitLeadingSpace(' ', Join(parts[1..], ' '));
      }
    }
  }

  lemma WordOfConcat(w: string, rest: string)
    requires NoSpace(w)
    requires rest == [] || IsSpace(rest[0])
    ensures Word(w + rest) == w
  {
    if |w| > 0 {
      assert (w + rest)[1..] == w[1..] + rest;
      WordOfConcat(w[1..], rest);
    } else {
      assert w + rest == rest;
    }
  }

  lemma SplitLeadingSpace(c: char, s: string)
    requires IsSpace(c)
    ensures Split([c] + s) == Split(s)
  {
    assert ([c] + s)[1..] == s;
  }

  // ----- integers as text -----

  predicate IsDigit(c: char) { '0' <= c <= '9' }

  function DigitChar(d: nat): (c: char)
    requires d < 10
    ensures IsDigit(c) && (c as int) - ('0' as int) == d
  {
    ['0', '1', '2', '3', '4', '5', '6', '7', '8', '9'][d]
  }

  /** `str(n)` for a natural number: its decimal digits, most significant first. */
  function NatToString(n: nat): (s: string)
    ensures |s| > 0
    ensures forall i :: 0 <= i < |s| ==> IsDigit(s[i])
  {
    if n < 10 then [DigitChar(n)] else NatToString(n / 10) + [DigitChar(n % 10)]
  }

  /** `str(i)` for a Python int. */
  function IntToString(i: int): (s: string)
    ensures |s| > 0 && NoSpace(s)
  {
    if i < 0 then "-" + NatToString(-i) else NatToString(i)
  }

  /** The digits part of a base-10 literal accepted by `int()`: ASCII digits,
      with single underscores allowed between two digits. */
  predicate ValidDigits(b: string) {
    && |b| > 0
    && IsDigit(b[0])
    && forall i :: 0 <= i < |b| ==> IsDigit(b[i]) || (b[i] == '_' && i + 1 < |b| && IsDigit(b[i + 1]))
  }

  /** The value of a digit string, underscores skipped. */
  function DigitsValue(b: string): nat
  {
    if |b| == 0 then 0
    else if IsDigit(b[|b| - 1]) then DigitsValue(b[..|b| - 1]) * 10 + ((b[|b| - 1] as int) - ('0' as int))
    else DigitsValue(b[..|b| - 1])
  }

  /** CPython's default limit on the digits of a decimal int conversion
      (`sys.get_int_max_str_digits()`, from Python 3.11 on): `int()` refuses a
      longer literal and `str()` a longer result, both with ValueError. */
  const MaxStrDigits: nat := 4300

  /** How many digits a string holds; signs and underscores do not count. */
  function DigitCount(s: string): nat
  {
    if |s| == 0 then 0 else (if IsDigit(s[0]) then 1 else 0) + DigitCount(s[1..])
  }

  /** A string of digits only counts its every character. */
  lemma {:induction false} AllDigitsCount(s: string)
    requires forall i :: 0 <= i < |s| ==> IsDigit(s[i])
    ensures DigitCount(s) == |s|
  {
    if |s| > 0 {
      assert forall i :: 0 <= i < |s| - 1 ==> s[1..][i] == s[i + 1];
      AllDigitsCount(s[1..]);
    }
  }

  /** `int(s)` for a token without whitespace: an optional sign followed by a
      digit string of at most `MaxStrDigits` digits; `None` where Python
      raises ValueError. */
  function ParseInt(s: string): (r: Option<int>)
    ensures r.Some? ==> |s| > 0 && if s[0] == '-' then r.value <= 0 else r.value >= 0
    ensures r.Some? ==> 0 < DigitCount(s) <= MaxStrDigits
  {
    if |s| > 0 && (s[0] == '-' || s[0] == '+') then
      if ValidDigits(s[1..]) && DigitCount(s[1..]) <= MaxStrDigits then
        var v: int := DigitsValue(s[1..]);
        Some(if s[0] == '-' then -v else v)
      else None
    else if ValidDigits(s) && DigitCount(s) <= MaxStrDigits then Some(DigitsValue(s))
    else None
  }

  lemma {:induction false} NatToStringValue(n: nat)
    ensures DigitsValue(NatToString(n)) == n
  {
    var s := NatToString(n);
    if n >= 10 {
      NatToStringValue(n / 10);
      assert s[..|s| - 1] == NatToString(n / 10);
    }
  }

  /** Whether `str(i)` stays within `MaxStrDigits` digits. */
  predicate WithinStrDigits(i: int) {
    |NatToString(if i < 0 then -i else i)| <= MaxStrDigits
  }

  /** Reading back what `str` wrote: `int(str(i)) == i` for every int whose
      decimal form is within the digit limit; a longer one is refused. */
  lemma IntToStringRoundTrip(i: int)
    ensures WithinStrDigits(i) ==> ParseInt(IntToString(i)) == Some(i)
    ensures !WithinStrDigits(i) ==> ParseInt(IntToString(i)).None?
  {
    var s := IntToString(i);
    if i < 0 {
      var digits := NatToString(-i);
      assert s == "-" + digits;
      assert s[0] == '-' && s[1..] == digits;
      assert ValidDigits(digits);
      AllDigitsCount(digits);
      NatToStringValue(-i);
      var v: int := DigitsValue(digits);
      if WithinStrDigits(i) {
        assert ParseInt(s) == Some(-v);
      }
    } else {
      assert s == NatToString(i);
      assert IsDigit(s[0]);
      assert ValidDigits(s);
      AllDigitsCount(s);
      NatToStringValue(i);
      if WithinStrDigits(i) {
        assert ParseInt(s) == Some(DigitsValue(s));
      }
    }
  }
}
