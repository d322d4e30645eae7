/** String and list helpers shared by the diff collector and the stop hook.

    They model the Python built-ins the hook relies on: `str.strip()`,
    `str.splitlines()`, `sep.join(parts)`, `str.endswith`, `str(n)` and the
    "keep only the non-empty strings" comprehension. Only ASCII whitespace and
    the line break '\n' are modelled. */
module Text {

  /** The ASCII characters Python's `str.isspace()` accepts (and so the ones
      `str.strip()` removes). */
  predicate IsSpace(c: char) {
    c == ' ' || c == '\t' || c == '\n' || c == '\r' ||
    c == '\U{B}' || c == '\U{C}' || ('\U{1C}' <= c <= '\U{1F}')
  }

  /** A string with no whitespace at either end. */
  predicate IsStripped(s: string) {
    s == [] || (!IsSpace(s[0]) && !IsSpace(s[|s| - 1]))
  }

  /** `s.lstrip()`: the longest suffix of `s` that does not start with whitespace. */
  function TrimStart(s: string): (r: string)
    ensures |r| <= |s|
    decreases |s|
  {
    if s != [] && IsSpace(s[0]) then TrimStart(s[1..]) else s
  }

  /** `lstrip` removes a prefix made only of whitespace and stops at the
      first other character. */
  lemma {:induction false} TrimStartSpec(s: string)
    ensures TrimStart(s) == s[|s| - |TrimStart(s)|..]
    ensures TrimStart(s) == [] || !IsSpace(TrimStart(s)[0])
    ensures forall i :: 0 <= i < |s| - |TrimStart(s)| ==> IsSpace(s[i])
    decreases |s|
  {
    if s != [] && IsSpace(s[0]) {
      TrimStartSpec(s[1..]);
    }
  }

  /** `s.rstrip()`: the longest prefix of `s` that does not end with whitespace. */
  function TrimEnd(s: string): (r: string)
    ensures |r| <= |s|
    decreases |s|
  {
    if s != [] && IsSpace(s[|s| - 1]) then TrimEnd(s[..|s| - 1]) else s
  }

  /** `rstrip` removes a suffix made only of whitespace and stops at the
      last other character. */
  lemma {:induction false} TrimEndSpec(s: string)
    ensures TrimEnd(s) == s[..|TrimEnd(s)|]
    ensures TrimEnd(s) == [] || !IsSpace(TrimEnd(s)[|TrimEnd(s)| - 1])
    ensures forall i :: |TrimEnd(s)| <= i < |s| ==> IsSpace(s[i])
    decreases |s|
  {
    if s != [] && IsSpace(s[|s| - 1]) {
      TrimEndSpec(s[..|s| - 1]);
    }
  }

  /** `s.strip()`. */
  function Strip(s: string): (r: string)
    ensures IsStripped(r)
  {
    var t := TrimStart(s);
    TrimStartSpec(s);
    TrimEndSpec(t);
    if TrimEnd(t) != [] then
      assert TrimEnd(t)[0] == t[0];
      TrimEnd(t)
    else TrimEnd(t)
  }

  /** Stripping removes exactly the whitespace: a string is stripped to nothing
      iff it holds only whitespace. */
  lemma StripEmptyIff(s: string)
    ensures Strip(s) == [] <==> forall i :: 0 <= i < |s| ==> IsSpace(s[i])
  {
    var t := TrimStart(s);
    TrimStartSpec(s);
    TrimEndSpec(t);
  }

  /** A string that is already stripped is left unchanged. */
  lemma StripStripped(s: string)
    requires IsStripped(s)
    ensures Strip(s) == s
  {
    assert TrimStart(s) == s;
    assert TrimEnd(s) == s;
  }

  /** Index of the first `c` in `s`, or `|s|` when there is none. */
  function IndexOf(s: string, c: char): (i: nat)
    ensures i <= |s|
  {
    if s == [] then 0 else if s[0] == c then 0 else 1 + IndexOf(s[1..], c)
  }

  /** `IndexOf` finds the first occurrence. */
  lemma {:induction false} IndexOfSpec(s: string, c: char)
    ensures IndexOf(s, c) < |s| ==> s[IndexOf(s, c)] == c
    ensures forall j :: 0 <= j < IndexOf(s, c) ==> s[j] != c
  {
    if s != [] && s[0] != c {
      IndexOfSpec(s[1..], c);
    }
  }

  /** The first occurrence is unique: any index with `c` there and none
      before it is `IndexOf`. */
  lemma IndexOfIs(s: string, c: char, i: nat)
    requires i <= |s| && (i < |s| ==> s[i] == c)
    requires forall j :: 0 <= j < i ==> s[j] != c
    ensures IndexOf(s, c) == i
  {
    IndexOfSpec(s, c);
  }

  /** A string without a line break. */
  predicate OneLine(s: string) {
    IndexOf(s, '\n') == |s|
  }

  lemma OneLineIff(s: string)
    ensures OneLine(s) <==> forall j :: 0 <= j < |s| ==> s[j] != '\n'
  {
    IndexOfSpec(s, '\n');
  }

  /** `s.splitlines()` for text whose only line break is '\n': a final '\n'
      does not open an empty last line, and the empty string has no lines. */
  function Lines(s: string): seq<string>
    decreases |s|
  {
    if s == [] then []
    else
      var i := IndexOf(s, '\n');
      if i == |s| then [s] else [s[..i]] + Lines(s[i + 1..])
  }

  /** Unfolds `Lines` at the first line break. */
  lemma LinesAtBreak(s: string, i: nat)
    requires i == IndexOf(s, '\n') < |s|
    ensures Lines(s) == [s[..i]] + Lines(s[i + 1..])
    ensures s == s[..i] + "\n" + s[i + 1..]
  {
    assert s != [];
    IndexOfSpec(s, '\n');
    SplitAt(s, i);
  }

  lemma SplitAt(s: string, i: nat)
    requires i < |s|
    ensures s == s[..i] + [s[i]] + s[i + 1..]
  {
  }

  /** No line holds a line break, and only the empty text has no lines. */
  lemma {:induction false} LinesShape(s: string)
    ensures forall k :: 0 <= k < |Lines(s)| ==> OneLine(Lines(s)[k])
    ensures s != [] <==> Lines(s) != []
    decreases |s|
  {
    if s != [] {
      var i := IndexOf(s, '\n');
      if i < |s| {
        LinesShape(s[i + 1..]);
        var a := s[..i];
        IndexOfSpec(s, '\n');
        assert forall j :: 0 <= j < |a| ==> a[j] != '\n';
        OneLineIff(a);
      }
    }
  }

  /** `sep.join(parts)`. */
  function Join(parts: seq<string>, sep: string): string
    decreases |parts|
  {
    if parts == [] then ""
    else if |parts| == 1 then parts[0]
    else parts[0] + sep + Join(parts[1..], sep)
  }

  /** Splitting a line followed by '\n' yields that line, then the lines of the rest. */
  lemma LinesAfterLine(a: string, z: string)
    requires OneLine(a)
    ensures Lines(a + "\n" + z) == [a] + Lines(z)
  {
    var s := a + "\n" + z;
    OneLineIff(a);
    assert forall j :: 0 <= j < |a| ==> s[j] != '\n' by {
      assert forall j :: 0 <= j < |a| ==> s[j] == a[j];
    }
    IndexOfIs(s, '\n', |a|);
    assert s[..|a|] == a;
    assert s[|a| + 1..] == z;
  }

  /** Joining with '\n' and splitting into lines gives back the lines, as long
      as none holds a line break and the last one is not empty. */
  lemma {:induction false} LinesOfJoin(ys: seq<string>)
    requires ys != [] && ys[|ys| - 1] != ""
    requires forall k :: 0 <= k < |ys| ==> OneLine(ys[k])
    ensures Lines(Join(ys, "\n")) == ys
  {
    if |ys| > 1 {
      LinesAfterLine(ys[0], Join(ys[1..], "\n"));
      LinesOfJoin(ys[1..]);
    } else {
      assert Lines(ys[0]) == [ys[0]];
    }
  }

  /** Splitting into lines and joining with '\n' gives back the text, unless
      the text ends with a line break (which `splitlines` forgets). */
  lemma {:induction false} JoinLines(s: string)
    requires s == [] || s[|s| - 1] != '\n'
    ensures Join(Lines(s), "\n") == s
    decreases |s|
  {
    if s != [] && IndexOf(s, '\n') < |s| {
      var i := IndexOf(s, '\n');
      var a, rest := s[..i], s[i + 1..];
      LinesAtBreak(s, i);
      assert rest != [] && rest[|rest| - 1] == s[|s| - 1];
      LinesShape(rest);
      JoinLines(rest);
      JoinCons(a, Lines(rest), "\n");
    }
  }

  lemma JoinCons(a: string, ls: seq<string>, sep: string)
    requires ls != []
    ensures Join([a] + ls, sep) == a + sep + Join(ls, sep)
  {
    assert ([a] + ls)[1..] == ls;
  }

  /** Every part non-empty and stripped: so is their join, whatever the separator. */
  lemma {:induction false} JoinStripped(parts: seq<string>, sep: string)
    requires forall k :: 0 <= k < |parts| ==> parts[k] != "" && IsStripped(parts[k])
    ensures IsStripped(Join(parts, sep))
    ensures parts != [] ==> Join(parts, sep) != ""
    decreases |parts|
  {
    if |parts| > 1 {
      JoinStripped(parts[1..], sep);
      var rest := Join(parts[1..], sep);
      var j := parts[0] + sep + rest;
      assert j[0] == parts[0][0];
      assert j[|j| - 1] == rest[|rest| - 1];
    }
  }

  /** `s.endswith(suffix)`; every string ends with "". */
  predicate EndsWith(s: string, suffix: string) {
    |suffix| <= |s| && s[|s| - |suffix|..] == suffix
  }

  function DigitChar(d: nat): (c: char)
    requires d < 10
    ensures '0' <= c <= '9' && c as int - '0' as int == d
  {
    ('0' as int + d) as char
  }

  /** `str(n)` for a natural number. */
  function Decimal(n: nat): (r: string)
    ensures r != [] && forall k :: 0 <= k < |r| ==> '0' <= r[k] <= '9'
    ensures |r| > 1 ==> r[0] != '0'
  {
    if n < 10 then [DigitChar(n)] else Decimal(n / 10) + [DigitChar(n % 10)]
  }

  /** The number a string of decimal digits denotes. */
  function DecimalValue(s: string): nat
    requires forall k :: 0 <= k < |s| ==> '0' <= s[k] <= '9'
    decreases |s|
  {
    if s == [] then 0
    else DecimalValue(s[..|s| - 1]) * 10 + (s[|s| - 1] as int - '0' as int)
  }

  /** `str(n)` reads back as `n`. */
  lemma {:induction false} DecimalRoundTrip(n: nat)
    ensures DecimalValue(Decimal(n)) == n
  {
    if n >= 10 {
      DecimalRoundTrip(n / 10);
      var s, init := Decimal(n), Decimal(n / 10);
      assert s == init + [DigitChar(n % 10)];
      assert s[..|s| - 1] == init;
      assert DecimalValue(s) == DecimalValue(init) * 10 + n % 10;
    }
  }

  /** `xs` is obtained from `ys` by deleting elements: same order, no edits. */
  predicate IsSubsequence<T(==)>(xs: seq<T>, ys: seq<T>)
    decreases |ys|
  {
    if ys == [] then xs == []
    else (xs != [] && xs[0] == ys[0] && IsSubsequence(xs[1..], ys[1..])) || IsSubsequence(xs, ys[1..])
  }

  predicate NoDuplicates<T(==)>(s: seq<T>) {
    forall i, j :: 0 <= i < j < |s| ==> s[i] != s[j]
  }

  /** `[x for x in xs if x]`: the non-empty strings of `xs`, in order. */
  function DropEmpty(xs: seq<string>): seq<string>
    decreases |xs|
  {
    if xs == [] then []
    else if xs[0] == "" then DropEmpty(xs[1..])
    else [xs[0]] + DropEmpty(xs[1..])
  }

  /** `DropEmpty` keeps the order, edits nothing and leaves out exactly the
      empty strings. */
  lemma {:induction false} DropEmptyFilter(xs: seq<string>)
    ensures IsSubsequence(DropEmpty(xs), xs)
    ensures forall x :: x in DropEmpty(xs) <==> x in xs && x != ""
    ensures forall x :: multiset(DropEmpty(xs))[x] == if x == "" then 0 else multiset(xs)[x]
    decreases |xs|
  {
    if xs != [] {
      DropEmptyFilter(xs[1..]);
      assert xs == [xs[0]] + xs[1..];
      assert multiset(xs) == multiset{xs[0]} + multiset(xs[1..]);
      assert forall x :: x in xs <==> x == xs[0] || x in xs[1..];
    }
  }

  /** Dropping the empty strings changes nothing when there are none. */
  lemma {:induction false} DropEmptyNone(xs: seq<string>)
    requires forall k :: 0 <= k < |xs| ==> xs[k] != ""
    ensures DropEmpty(xs) == xs
    decreases |xs|
  {
    if xs != [] {
      DropEmptyNone(xs[1..]);
    }
  }
}
