/** The Python string operations the converter relies on: `''.join`,
    `str.replace` of one character, `str.split(sep)`, `str.splitlines(True)`,
    `textwrap.indent`, `hex(n)[2:]` and `int(s, base=16)`. */
module Strings {
  import opened Common

  /** `''.join(parts)`. */
  function Concat(parts: seq<string>): (s: string)
    decreases |parts|
  {
    if parts == [] then "" else Concat(parts[..|parts| - 1]) + parts[|parts| - 1]
  }

  lemma {:induction false} ConcatAppend(a: seq<string>, b: seq<string>)
    ensures Concat(a + b) == Concat(a) + Concat(b)
    decreases |b|
  {
    if b == [] {
      assert a + b == a;
    } else {
      var ab := a + b;
      assert ab[..|ab| - 1] == a + b[..|b| - 1];
      ConcatAppend(a, b[..|b| - 1]);
    }
  }

  lemma ConcatCons(head: string, tail: seq<string>)
    ensures Concat([head] + tail) == head + Concat(tail)
  {
    ConcatAppend([head], tail);
    assert Concat([head]) == Concat([]) + head;
  }

  lemma ConcatSnoc(parts: seq<string>, last: string)
    ensures Concat(parts + [last]) == Concat(parts) + last
  {
    assert (parts + [last])[..|parts|] == parts;
  }

  /** `''.join(f(x) for x in xs)`: the pieces of the elements, in order. */
  function JoinMap<T>(xs: seq<T>, f: T --> string): string
    requires forall i :: 0 <= i < |xs| ==> f.requires(xs[i])
    decreases |xs|
  {
    if xs == [] then "" else JoinMap(xs[..|xs| - 1], f) + f(xs[|xs| - 1])
  }

  lemma JoinMapSnoc<T>(xs: seq<T>, x: T, f: T --> string)
    requires forall i :: 0 <= i < |xs| ==> f.requires(xs[i])
    requires f.requires(x)
    ensures forall i :: 0 <= i < |xs + [x]| ==> f.requires((xs + [x])[i])
    ensures JoinMap(xs + [x], f) == JoinMap(xs, f) + f(x)
  {
    assert (xs + [x])[..|xs|] == xs;
  }

  /** The pieces of a concatenation are the pieces of its parts, in order. */
  lemma {:induction false} JoinMapAppend<T>(a: seq<T>, b: seq<T>, f: T --> string)
    requires forall i :: 0 <= i < |a| ==> f.requires(a[i])
    requires forall i :: 0 <= i < |b| ==> f.requires(b[i])
    ensures forall i :: 0 <= i < |a + b| ==> f.requires((a + b)[i])
    ensures JoinMap(a + b, f) == JoinMap(a, f) + JoinMap(b, f)
    decreases |b|
  {
    if b == [] {
      assert a + b == a;
    } else {
      var init, last := b[..|b| - 1], b[|b| - 1];
      assert b == init + [last];
      assert a + b == (a + init) + [last];
      JoinMapAppend(a, init, f);
      JoinMapSnoc(a + init, last, f);
      JoinMapSnoc(init, last, f);
    }
  }

  // ---------------------------------------------------------------------------
  // s.replace(ch, "")

  /** `s.replace(ch, "")`: s with every occurrence of ch removed. */
  function RemoveAll(s: string, ch: char): (r: string)
    ensures ch !in r
    ensures |r| <= |s|
    ensures ch !in s ==> r == s
    decreases |s|
  {
    if s == [] then []
    else (if s[0] == ch then [] else [s[0]]) + RemoveAll(s[1..], ch)
  }

  /** Removal distributes over concatenation: what is kept keeps its order. */
  lemma {:induction false} RemoveAllAppend(a: string, b: string, ch: char)
    ensures RemoveAll(a + b, ch) == RemoveAll(a, ch) + RemoveAll(b, ch)
    decreases |a|
  {
    if a == [] {
      assert a + b == b;
    } else {
      assert (a + b)[0] == a[0];
      assert (a + b)[1..] == a[1..] + b;
      RemoveAllAppend(a[1..], b, ch);
    }
  }

  /** Exactly the occurrences of ch go: every other character is kept as
      many times as it occurs. */
  lemma {:induction false} RemoveAllCounts(s: string, ch: char)
    ensures multiset(RemoveAll(s, ch)) == multiset(s)[ch := 0]
    decreases |s|
  {
    if s != [] {
      RemoveAllCounts(s[1..], ch);
      assert s == [s[0]] + s[1..];
    }
  }

  // ---------------------------------------------------------------------------
  // s.split(sep)

  /** Position of the first ch in s, or |s| when there is none. */
  function IndexOf(s: string, ch: char): (k: nat)
    ensures k <= |s|
    ensures k < |s| ==> s[k] == ch
    ensures forall i :: 0 <= i < k ==> s[i] != ch
    decreases |s|
  {
    if s == [] then 0 else if s[0] == ch then 0 else 1 + IndexOf(s[1..], ch)
  }

  /** `s.split(sep)` for a one-character separator: the pieces between
      separators, empty pieces included, so never fewer than one piece. */
  function Split(s: string, sep: char): (parts: seq<string>)
    ensures |parts| >= 1
    ensures forall i :: 0 <= i < |parts| ==> sep !in parts[i]
    decreases |s|
  {
    var k := IndexOf(s, sep);
    if k == |s| then [s] else [s[..k]] + Split(s[k + 1..], sep)
  }

  /** `sep.join(parts)`. */
  function JoinWith(parts: seq<string>, sep: char): string
    decreases |parts|
  {
    if parts == [] then ""
    else if |parts| == 1 then parts[0]
    else parts[0] + [sep] + JoinWith(parts[1..], sep)
  }

  /** Splitting and joining again gives the string back. */
  lemma {:induction false} SplitJoin(s: string, sep: char)
    ensures JoinWith(Split(s, sep), sep) == s
    decreases |s|
  {
    var k := IndexOf(s, sep);
    if k < |s| {
      var rest := s[k + 1..];
      var parts := Split(s, sep);
      assert parts == [s[..k]] + Split(rest, sep);
      assert parts[0] == s[..k] && parts[1..] == Split(rest, sep);
      SplitJoin(rest, sep);
      assert JoinWith(parts, sep) == parts[0] + [sep] + JoinWith(parts[1..], sep);
      assert s == s[..k] + [sep] + rest;
    }
  }

  /** Joining pieces free of the separator and splitting again gives the pieces back. */
  lemma {:induction false} JoinSplit(parts: seq<string>, sep: char)
    requires |parts| >= 1
    requires forall i :: 0 <= i < |parts| ==> sep !in parts[i]
    ensures Split(JoinWith(parts, sep), sep) == parts
    decreases |parts|
  {
    if |parts| == 1 {
      assert IndexOf(parts[0], sep) == |parts[0]|;
    } else {
      var rest := JoinWith(parts[1..], sep);
      var s := parts[0] + [sep] + rest;
      JoinSplit(parts[1..], sep);
      IndexOfAfterFree(parts[0], sep, rest);
      assert s[..|parts[0]|] == parts[0];
      assert s[|parts[0]| + 1..] == rest;
      assert parts == [parts[0]] + parts[1..];
    }
  }

  lemma {:induction false} IndexOfAfterFree(a: string, sep: char, rest: string)
    requires sep !in a
    ensures IndexOf(a + [sep] + rest, sep) == |a|
    decreases |a|
  {
    if a != [] {
      assert (a + [sep] + rest)[1..] == a[1..] + [sep] + rest;
      IndexOfAfterFree(a[1..], sep, rest);
    }
  }

  // ---------------------------------------------------------------------------
  // s.splitlines(keepends=True), with "\n" as the line boundary

  /** The lines of s, each keeping its "\n"; a last line without "\n" is kept too. */
  function SplitLines(s: string): (lines: seq<string>)
    ensures s != [] ==> |lines| >= 1
    decreases |s|
  {
    if s == [] then []
    else
      var k := IndexOf(s, '\n');
      if k == |s| then [s] else [s[..k + 1]] + SplitLines(s[k + 1..])
  }

  /** A line as splitlines(True) produces it: ends with its only "\n". */
  predicate IsLine(line: string) {
    |line| >= 1 && line[|line| - 1] == '\n' && '\n' !in line[..|line| - 1]
  }

  /** Joining the lines gives the text back. */
  lemma {:induction false} SplitLinesConcat(s: string)
    ensures Concat(SplitLines(s)) == s
    decreases |s|
  {
    if s != [] {
      var k := IndexOf(s, '\n');
      if k == |s| {
        assert Concat([s]) == Concat([]) + s;
      } else {
        SplitLinesConcat(s[k + 1..]);
        ConcatCons(s[..k + 1], SplitLines(s[k + 1..]));
        assert s == s[..k + 1] + s[k + 1..];
      }
    }
  }

  lemma SplitLinesCons(line: string, rest: string)
    requires IsLine(line)
    ensures SplitLines(line + rest) == [line] + SplitLines(rest)
  {
    var s := line + rest;
    var n := |line| - 1;
    assert s[..n] == line[..n];
    assert IndexOf(s, '\n') == n by {
      assert s[n] == '\n';
      assert forall i :: 0 <= i < n ==> s[i] == line[..n][i];
      IndexOfFirst(s, '\n', n);
    }
    assert s[..n + 1] == line;
    assert s[n + 1..] == rest;
  }

  lemma {:induction false} IndexOfFirst(s: string, ch: char, n: nat)
    requires n < |s| && s[n] == ch
    requires forall i :: 0 <= i < n ==> s[i] != ch
    ensures IndexOf(s, ch) == n
    decreases n
  {
    if n > 0 {
      IndexOfFirst(s[1..], ch, n - 1);
    }
  }

  /** Text made of whole lines followed by a tail splits into those lines and the tail's. */
  lemma {:induction false} SplitLinesOfLines(lines: seq<string>, tail: string)
    requires forall i :: 0 <= i < |lines| ==> IsLine(lines[i])
    ensures SplitLines(Concat(lines) + tail) == lines + SplitLines(tail)
    decreases |lines|
  {
    if lines != [] {
      var head, rest := lines[0], lines[1..];
      assert forall i :: 0 <= i < |rest| ==> IsLine(rest[i]) by {
        forall i | 0 <= i < |rest| ensures IsLine(rest[i]) { assert rest[i] == lines[i + 1]; }
      }
      var after := Concat(rest) + tail;
      calc {
        SplitLines(Concat(lines) + tail);
        { assert lines == [head] + rest; ConcatCons(head, rest); assert Concat(lines) + tail == head + after; }
        SplitLines(head + after);
        { assert IsLine(lines[0]); SplitLinesCons(head, after); }
        [head] + SplitLines(after);
        { SplitLinesOfLines(rest, tail); }
        [head] + (rest + SplitLines(tail));
        { assert lines == [head] + rest; }
        lines + SplitLines(tail);
      }
    } else {
      assert Concat(lines) + tail == tail;
    }
  }

  // ---------------------------------------------------------------------------
  // textwrap.indent(text, prefix)

  /** The characters for which Python's `str.isspace` holds. */
  predicate IsSpace(ch: char) {
    var c := ch as int;
    (0x09 <= c <= 0x0D) || (0x1C <= c <= 0x20) || c == 0x85 || c == 0xA0 || c == 0x1680 ||
    (0x2000 <= c <= 0x200A) || c == 0x2028 || c == 0x2029 || c == 0x202F || c == 0x205F || c == 0x3000
  }

  /** `not line.strip()`: the line is empty or only whitespace. */
  predicate IsBlank(line: string) {
    forall i :: 0 <= i < |line| ==> IsSpace(line[i])
  }

  /** What textwrap.indent does to one line: prefix it unless it is blank. */
  function IndentLine(line: string, prefix: string): (r: string)
    ensures IsBlank(line) ==> r == line
    ensures !IsBlank(line) ==> r == prefix + line
  {
    if IsBlank(line) then line else prefix + line
  }

  /** `textwrap.indent(text, prefix)`: prefix every line that is not blank. */
  function Indent(text: string, prefix: string): string {
    var lines := SplitLines(text);
    Concat(seq(|lines|, i requires 0 <= i < |lines| => IndentLine(lines[i], prefix)))
  }

  /** Indenting text made of whole lines indents each of them. */
  lemma IndentLines(lines: seq<string>, prefix: string)
    requires forall i :: 0 <= i < |lines| ==> IsLine(lines[i])
    ensures Indent(Concat(lines), prefix) ==
              Concat(seq(|lines|, i requires 0 <= i < |lines| => IndentLine(lines[i], prefix)))
  {
    SplitLinesOfLines(lines, "");
    assert Concat(lines) + "" == Concat(lines);
    assert lines + SplitLines("") == lines;
  }

  /** Indenting one line, with or without its "\n". */
  lemma IndentOneLine(line: string, prefix: string)
    requires line != [] && '\n' !in line[..|line| - 1]
    ensures Indent(line, prefix) == IndentLine(line, prefix)
  {
    if line[|line| - 1] == '\n' {
      SplitLinesCons(line, "");
      assert line + "" == line;
    } else {
      assert '\n' !in line;
      assert IndexOf(line, '\n') == |line|;
    }
    var lines := SplitLines(line);
    assert lines == [line];
    var ind := seq(|lines|, i requires 0 <= i < |lines| => IndentLine(lines[i], prefix));
    assert ind == [IndentLine(line, prefix)];
    assert Concat(ind) == Concat([]) + IndentLine(line, prefix);
  }

  // ---------------------------------------------------------------------------
  // hex(n)[2:] and int(s, base=16)

  predicate IsHexDigit(ch: char) {
    ('0' <= ch <= '9') || ('a' <= ch <= 'f') || ('A' <= ch <= 'F')
  }

  /** The digits `hex` writes. */
  predicate IsLowerHexDigit(ch: char) {
    ('0' <= ch <= '9') || ('a' <= ch <= 'f')
  }

  predicate AllHex(s: string) {
    forall i :: 0 <= i < |s| ==> IsHexDigit(s[i])
  }

  function DigitValue(ch: char): (d: nat)
    requires IsHexDigit(ch)
    ensures d < 16
  {
    if '0' <= ch <= '9' then ch as int - '0' as int
    else if 'a' <= ch <= 'f' then ch as int - 'a' as int + 10
    else ch as int - 'A' as int + 10
  }

  /** The lower-case digit `hex` writes for d. */
  function HexDigit(d: nat): (ch: char)
    requires d < 16
    ensures IsHexDigit(ch) && IsLowerHexDigit(ch) && DigitValue(ch) == d
    ensures !IsSpace(ch) && ch != '\n' && ch != '`'
  {
    if d < 10 then ('0' as int + d) as char else ('a' as int + d - 10) as char
  }

  /** The value of a string of hex digits, most significant first. */
  function HexValue(s: string): (v: nat)
    requires AllHex(s)
    decreases |s|
  {
    if s == [] then 0 else HexValue(s[..|s| - 1]) * 16 + DigitValue(s[|s| - 1])
  }

  function Pow16(k: nat): (p: nat)
    ensures p >= 1
  {
    if k == 0 then 1 else 16 * Pow16(k - 1)
  }

  /** k hex digits denote a value below 16^k; two digits one below 256. */
  lemma {:induction false} HexValueBound(s: string)
    requires AllHex(s)
    ensures HexValue(s) < Pow16(|s|)
    decreases |s|
  {
    if s != [] {
      HexValueBound(s[..|s| - 1]);
    }
  }

  /** `int(s, base=16)` for a string of plain hex digits; anything else
      (the empty string included) raises ValueError. */
  function ParseHex(s: string): (r: Result<int>)
    ensures r.Ok? <==> s != [] && AllHex(s)
    ensures r.Ok? ==> 0 <= r.value < Pow16(|s|)
  {
    if s != [] && AllHex(s) then HexValueBound(s); Ok(HexValue(s)) else Err(InvalidHex(s))
  }

  /** `hex(n)[2:]`: n in lower-case hexadecimal without the "0x" prefix. */
  function Hex(n: nat): (s: string)
    ensures |s| >= 1 && AllHex(s)
    ensures forall i :: 0 <= i < |s| ==> IsLowerHexDigit(s[i])
    ensures |s| == 1 || s[0] != '0'
    ensures forall i :: 0 <= i < |s| ==> !IsSpace(s[i]) && s[i] != '\n' && s[i] != '`'
    decreases n
  {
    if n < 16 then [HexDigit(n)] else Hex(n / 16) + [HexDigit(n % 16)]
  }

  /** Reading back what hex wrote gives the number: the tokens are a bijection with the indices. */
  lemma {:induction false} HexRoundTrip(n: nat)
    ensures ParseHex(Hex(n)) == Ok(n)
    decreases n
  {
    if n >= 16 {
      HexRoundTrip(n / 16);
      var s := Hex(n);
      assert s[..|s| - 1] == Hex(n / 16);
    }
  }

  lemma HexInjective(m: nat, n: nat)
    requires Hex(m) == Hex(n)
    ensures m == n
  {
    HexRoundTrip(m);
    HexRoundTrip(n);
  }

  /** One digit exactly for the indices below 16, two for 16 to 255. */
  lemma HexLength(n: nat)
    ensures |Hex(n)| == 1 <==> n < 16
    ensures 16 <= n < 256 ==> |Hex(n)| == 2
  {
    if n >= 16 {
      assert |Hex(n / 16)| >= 1;
    }
  }
}
