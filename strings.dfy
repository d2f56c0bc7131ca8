/** The small part of Go's `strings` and `strconv` packages that the templater
    relies on, over text as a sequence of characters. */
module GoStrings {

  datatype Option<T> = None | Some(value: T)

  /** Go's unicode.IsSpace: the characters strings.TrimSpace removes. */
  predicate IsSpace(c: char) {
    || c == ' ' || c == '\t' || c == '\n' || c == '\r'
    || c == '\U{0B}' || c == '\U{0C}' || c == '\U{85}' || c == '\U{A0}'
    || c == '\U{1680}' || ('\U{2000}' <= c <= '\U{200A}')
    || c == '\U{2028}' || c == '\U{2029}' || c == '\U{202F}'
    || c == '\U{205F}' || c == '\U{3000}'
  }

  /** The cut set " \t" used for indentation. */
  predicate IsBlank(c: char) {
    c == ' ' || c == '\t'
  }

  predicate AllSpace(s: string) {
    forall k :: 0 <= k < |s| ==> IsSpace(s[k])
  }

  predicate AllBlank(s: string) {
    forall k :: 0 <= k < |s| ==> IsBlank(s[k])
  }

  /** strings.TrimSpace: the text without its leading and trailing white space;
      it is empty exactly when the text is all white space. */
  function TrimSpace(s: string): (r: string)
    ensures r == [] <==> AllSpace(s)
    ensures r != [] ==> !IsSpace(r[0]) && !IsSpace(r[|r| - 1])
    decreases |s|
  {
    if s != [] && IsSpace(s[0]) then
      assert forall k :: 1 <= k < |s| ==> s[1..][k - 1] == s[k];
      TrimSpace(s[1..])
    else if s != [] && IsSpace(s[|s| - 1]) then
      assert forall k :: 0 <= k < |s| - 1 ==> s[..|s| - 1][k] == s[k];
      TrimSpace(s[..|s| - 1])
    else s
  }

  /** r sits in s at p with only white space around it. */
  predicate TrimmedAt(s: string, r: string, p: nat) {
    p + |r| <= |s| && r == s[p..p + |r|] && AllSpace(s[..p]) && AllSpace(s[p + |r|..])
  }

  lemma TrimmedAtSpaceFront(s: string, r: string, p: nat)
    requires s != [] && IsSpace(s[0]) && TrimmedAt(s[1..], r, p)
    ensures TrimmedAt(s, r, p + 1)
  {
    var t := s[1..];
    assert r == s[p + 1..p + 1 + |r|];
    assert s[..p + 1] == [s[0]] + t[..p];
    assert s[p + 1 + |r|..] == t[p + |r|..];
  }

  lemma TrimmedAtSpaceBack(s: string, r: string, p: nat)
    requires s != [] && IsSpace(s[|s| - 1]) && TrimmedAt(s[..|s| - 1], r, p)
    ensures TrimmedAt(s, r, p)
  {
    var t := s[..|s| - 1];
    assert r == s[p..p + |r|];
    assert s[..p] == t[..p];
    assert s[p + |r|..] == t[p + |r|..] + [s[|s| - 1]];
  }

  /** TrimSpace's value: the text it returns is a stretch of the input with
      only white space before and after it. */
  lemma {:induction false} TrimSpaceSpec(s: string)
    ensures exists p :: TrimmedAt(s, TrimSpace(s), p)
    decreases |s|
  {
    var r := TrimSpace(s);
    if s != [] && IsSpace(s[0]) {
      TrimSpaceSpec(s[1..]);
      var p :| TrimmedAt(s[1..], r, p);
      TrimmedAtSpaceFront(s, r, p);
    } else if s != [] && IsSpace(s[|s| - 1]) {
      TrimSpaceSpec(s[..|s| - 1]);
      var p :| TrimmedAt(s[..|s| - 1], r, p);
      TrimmedAtSpaceBack(s, r, p);
    } else {
      assert TrimmedAt(s, r, 0);
    }
  }

  /** len(line) - len(strings.TrimLeft(line, " \t")): the width of the
      indentation, every character of which is a space or a tab. */
  function IndentWidth(line: string): (n: nat)
    ensures n <= |line|
    ensures forall k :: 0 <= k < n ==> IsBlank(line[k])
    ensures n < |line| ==> !IsBlank(line[n])
    decreases |line|
  {
    if line != [] && IsBlank(line[0]) then
      assert forall k :: 1 <= k < |line| ==> line[1..][k - 1] == line[k];
      1 + IndentWidth(line[1..])
    else 0
  }

  predicate HasPrefix(s: string, p: string) {
    |p| <= |s| && s[..|p|] == p
  }

  predicate HasSuffix(s: string, p: string) {
    |p| <= |s| && s[|s| - |p|..] == p
  }

  /** strings.Contains: some position of s starts an occurrence of sub. */
  predicate Contains(s: string, sub: string)
    decreases |s|
  {
    HasPrefix(s, sub) || (s != [] && Contains(s[1..], sub))
  }

  /** strings.TrimPrefix. */
  function TrimPrefix(s: string, p: string): (r: string)
    ensures HasPrefix(s, p) ==> s == p + r
    ensures !HasPrefix(s, p) ==> r == s
  {
    if HasPrefix(s, p) then
      assert s == s[..|p|] + s[|p|..];
      s[|p|..]
    else s
  }

  /** strings.Split for a non-empty separator: the pieces between the
      leftmost non-overlapping occurrences of sep. */
  function SplitOn(s: string, sep: string): (r: seq<string>)
    requires sep != []
    ensures |r| >= 1
    decreases |s|
  {
    if HasPrefix(s, sep) then [[]] + SplitOn(s[|sep|..], sep)
    else if s == [] then [[]]
    else
      var rest := SplitOn(s[1..], sep);
      [[s[0]] + rest[0]] + rest[1..]
  }

  /** strings.Join. */
  function JoinWith(parts: seq<string>, sep: string): string
  {
    if parts == [] then []
    else if |parts| == 1 then parts[0]
    else parts[0] + sep + JoinWith(parts[1..], sep)
  }

  /** strings.ReplaceAll: every leftmost non-overlapping occurrence of pat is
      replaced by rep; an empty pat inserts rep around every character. */
  function ReplaceAll(s: string, pat: string, rep: string): string
    decreases |s|
  {
    if pat == [] then
      (if s == [] then rep else rep + [s[0]] + ReplaceAll(s[1..], pat, rep))
    else if HasPrefix(s, pat) then rep + ReplaceAll(s[|pat|..], pat, rep)
    else if s == [] then []
    else [s[0]] + ReplaceAll(s[1..], pat, rep)
  }

  /** The text as lines: strings.Split(text, "\n"). */
  function Lines(text: string): (r: seq<string>)
    ensures |r| >= 1
  {
    SplitOn(text, "\n")
  }

  /** strings.Join(lines, "\n"). */
  function Unlines(lines: seq<string>): string {
    JoinWith(lines, "\n")
  }

  predicate NoNewline(s: string) {
    '\n' !in s
  }

  predicate AllNoNewline(lines: seq<string>) {
    forall j :: 0 <= j < |lines| ==> NoNewline(lines[j])
  }

  /** strconv.Itoa for a non-negative value. */
  function Itoa(n: nat): (r: string)
    ensures r != []
    ensures forall k :: 0 <= k < |r| ==> '0' <= r[k] <= '9'
  {
    if n < 10 then [Digit(n)] else Itoa(n / 10) + [Digit(n % 10)]
  }

  function Digit(d: nat): (c: char)
    requires d < 10
  {
    ['0', '1', '2', '3', '4', '5', '6', '7', '8', '9'][d]
  }

  /** The value a string of decimal digits denotes (the partner of Itoa). */
  function DecimalValue(s: string): nat
    requires forall k :: 0 <= k < |s| ==> '0' <= s[k] <= '9'
  {
    if s == [] then 0
    else DecimalValue(s[..|s| - 1]) * 10 + ((s[|s| - 1] as int) - ('0' as int))
  }

  // ---------------------------------------------------------------------
  // Lemmas

  /** Joining the pieces of a split with the same separator gives the text back. */
  lemma {:induction false} JoinSplit(s: string, sep: string)
    requires sep != []
    ensures JoinWith(SplitOn(s, sep), sep) == s
    decreases |s|
  {
    if HasPrefix(s, sep) {
      JoinSplit(s[|sep|..], sep);
      JoinConsEmpty(SplitOn(s[|sep|..], sep), sep);
      assert s == sep + s[|sep|..];
    } else if s == [] {
    } else {
      JoinSplit(s[1..], sep);
      JoinConsChar(s[0], SplitOn(s[1..], sep), sep);
      assert s == [s[0]] + s[1..];
    }
  }

  /** An empty first piece puts one separator in front of the rest. */
  lemma JoinConsEmpty(rest: seq<string>, sep: string)
    requires |rest| >= 1
    ensures JoinWith([[]] + rest, sep) == sep + JoinWith(rest, sep)
  {
    var parts := [[]] + rest;
    assert parts[1..] == rest;
    assert JoinWith(parts, sep) == [] + sep + JoinWith(rest, sep);
  }

  /** Putting a character in front of the first piece puts it in front of
      the joined text. */
  lemma JoinConsChar(c: char, rest: seq<string>, sep: string)
    requires |rest| >= 1
    ensures JoinWith([[c] + rest[0]] + rest[1..], sep) == [c] + JoinWith(rest, sep)
  {
    var parts := [[c] + rest[0]] + rest[1..];
    if |rest| > 1 {
      assert parts[0] == [c] + rest[0] && parts[1..] == rest[1..];
      assert JoinWith(rest, sep) == rest[0] + sep + JoinWith(rest[1..], sep);
      assert JoinWith(parts, sep) == ([c] + rest[0]) + sep + JoinWith(rest[1..], sep);
    }
  }

  /** ReplaceAll is splitting on the pattern and joining with the replacement. */
  lemma {:induction false} ReplaceAllIsSplitJoin(s: string, pat: string, rep: string)
    requires pat != []
    ensures ReplaceAll(s, pat, rep) == JoinWith(SplitOn(s, pat), rep)
    decreases |s|
  {
    if HasPrefix(s, pat) {
      ReplaceAllIsSplitJoin(s[|pat|..], pat, rep);
    } else if s == [] {
    } else {
      ReplaceAllIsSplitJoin(s[1..], pat, rep);
      JoinConsChar(s[0], SplitOn(s[1..], pat), rep);
    }
  }

  /** Replacing a pattern that does not occur changes nothing. */
  lemma {:induction false} ReplaceAllAbsent(s: string, pat: string, rep: string)
    requires pat != [] && !Contains(s, pat)
    ensures ReplaceAll(s, pat, rep) == s
    decreases |s|
  {
    if s != [] {
      ReplaceAllAbsent(s[1..], pat, rep);
      assert s == [s[0]] + s[1..];
    }
  }

  /** A line without a newline splits into itself alone. */
  lemma {:induction false} LinesOfLine(a: string)
    requires NoNewline(a)
    ensures Lines(a) == [a]
    decreases |a|
  {
    if a != [] {
      assert a[0] != '\n' && a[..1][0] == a[0];
      assert !HasPrefix(a, "\n");
      LinesOfLine(a[1..]);
      assert a == [a[0]] + a[1..];
    }
  }

  lemma {:induction false} LinesCons(a: string, rest: string)
    requires NoNewline(a)
    ensures Lines(a + "\n" + rest) == [a] + Lines(rest)
    decreases |a|
  {
    var s := a + "\n" + rest;
    if a == [] {
      assert HasPrefix(s, "\n");
      assert s[1..] == rest;
    } else {
      assert s[0] == a[0] && a[0] != '\n' && s[..1][0] == s[0];
      assert !HasPrefix(s, "\n");
      assert s[1..] == a[1..] + "\n" + rest;
      LinesCons(a[1..], rest);
      assert [s[0]] + a[1..] == a;
    }
  }

  /** Splitting joined lines that hold no newline gives the lines back. */
  lemma {:induction false} SplitJoinLines(lines: seq<string>)
    requires |lines| >= 1 && AllNoNewline(lines)
    ensures Lines(Unlines(lines)) == lines
    decreases |lines|
  {
    if |lines| == 1 {
      LinesOfLine(lines[0]);
    } else {
      SplitJoinLines(lines[1..]);
      LinesCons(lines[0], Unlines(lines[1..]));
      assert [lines[0]] + lines[1..] == lines;
    }
  }

  /** Every piece of a split on "\n" is free of newlines. */
  lemma {:induction false} LinesHaveNoNewline(text: string)
    ensures AllNoNewline(Lines(text))
    decreases |text|
  {
    if HasPrefix(text, "\n") {
      LinesHaveNoNewline(text[1..]);
    } else if text != [] {
      LinesHaveNoNewline(text[1..]);
      var rest := Lines(text[1..]);
      assert text[0] != '\n';
      assert NoNewline([text[0]] + rest[0]);
      assert forall j :: 1 <= j < |rest| ==> NoNewline(rest[j]);
    }
  }

  /** A text contains what stands in its middle. */
  lemma {:induction false} ContainsMiddle(a: string, b: string, c: string)
    ensures Contains(a + b + c, b)
    decreases |a|
  {
    if a == [] {
      assert (a + b + c)[..|b|] == b;
    } else {
      ContainsMiddle(a[1..], b, c);
      assert (a + b + c)[1..] == a[1..] + b + c;
    }
  }

  /** An empty text contains only the empty string. */
  lemma EmptyContains(sub: string)
    ensures Contains([], sub) <==> sub == []
  {
  }

  /** An indented key line trims to its key. */
  lemma {:induction false} TrimSpaceOfIndented(w: string, key: string)
    requires AllBlank(w) && key != []
    requires !IsSpace(key[0]) && !IsSpace(key[|key| - 1])
    ensures TrimSpace(w + key) == key
    decreases |w|
  {
    if w != [] {
      assert (w + key)[1..] == w[1..] + key;
      TrimSpaceOfIndented(w[1..], key);
    } else {
      assert w + key == key;
    }
  }

  /** Itoa and DecimalValue are inverse. */
  lemma {:induction false} ItoaRoundTrip(n: nat)
    ensures DecimalValue(Itoa(n)) == n
  {
    if n >= 10 {
      ItoaRoundTrip(n / 10);
      var s := Itoa(n);
      assert s[..|s| - 1] == Itoa(n / 10);
    }
  }

  /** strings.TrimRight with a one-character cut set: the text without the
      run of c at its end. */
  function TrimRightChar(s: string, c: char): (r: string)
    ensures |r| <= |s| && r == s[..|r|]
    ensures r != [] ==> r[|r| - 1] != c
    decreases |s|
  {
    if s != [] && s[|s| - 1] == c then TrimRightChar(s[..|s| - 1], c) else s
  }

  /** TrimRight drops only the cut character. */
  lemma {:induction false} TrimRightCharDropsOnlyCut(s: string, c: char)
    ensures forall k :: |TrimRightChar(s, c)| <= k < |s| ==> s[k] == c
    decreases |s|
  {
    if s != [] && s[|s| - 1] == c {
      var s' := s[..|s| - 1];
      TrimRightCharDropsOnlyCut(s', c);
      assert forall k :: |TrimRightChar(s, c)| <= k < |s'| ==> s[k] == s'[k];
    }
  }

  /** Trimming the cut character from a text that ends in exactly one of it. */
  lemma TrimRightCharOne(x: string, c: char)
    requires x != [] && x[|x| - 1] != c
    ensures TrimRightChar(x + [c], c) == x
  {
    assert (x + [c])[..|x|] == x;
  }

  /** strings.Index for a one-character pattern: the first position of c,
      or -1 when there is none. */
  function IndexOfChar(s: string, c: char): (r: int)
    ensures -1 <= r < |s|
    decreases |s|
  {
    if s == [] then -1
    else if s[0] == c then 0
    else
      var k := IndexOfChar(s[1..], c);
      if k < 0 then -1 else k + 1
  }

  /** The index found holds c and no earlier position does; -1 means c does
      not occur. */
  lemma {:induction false} IndexOfCharSpec(s: string, c: char)
    ensures var r := IndexOfChar(s, c);
      && (r >= 0 ==> s[r] == c && forall k :: 0 <= k < r ==> s[k] != c)
      && (r == -1 ==> forall k :: 0 <= k < |s| ==> s[k] != c)
    decreases |s|
  {
    if s != [] && s[0] != c {
      IndexOfCharSpec(s[1..], c);
      var r := IndexOfChar(s, c);
      if r >= 0 {
        forall k | 0 <= k < r ensures s[k] != c {
          if k > 0 { assert s[k] == s[1..][k - 1]; }
        }
      } else {
        forall k | 0 <= k < |s| ensures s[k] != c {
          if k > 0 { assert s[k] == s[1..][k - 1]; }
        }
      }
    }
  }

  /** An occurrence in a text is still one after something is appended. */
  lemma {:induction false} ContainsAppendLeft(a: string, b: string, sub: string)
    requires Contains(a, sub)
    ensures Contains(a + b, sub)
    decreases |a|
  {
    if HasPrefix(a, sub) {
      assert (a + b)[..|sub|] == a[..|sub|];
    } else {
      ContainsAppendLeft(a[1..], b, sub);
      assert (a + b)[1..] == a[1..] + b;
    }
  }

  /** An occurrence in a text is still one after something is prepended. */
  lemma {:induction false} ContainsAppendRight(a: string, b: string, sub: string)
    requires Contains(b, sub)
    ensures Contains(a + b, sub)
    decreases |a|
  {
    if a == [] {
      assert a + b == b;
    } else {
      ContainsAppendRight(a[1..], b, sub);
      assert (a + b)[1..] == a[1..] + b;
    }
  }

  /** Joining one more piece puts the separator and the piece at the end. */
  lemma {:induction false} JoinSnoc(parts: seq<string>, x: string, sep: string)
    requires parts != []
    ensures JoinWith(parts + [x], sep) == JoinWith(parts, sep) + sep + x
    decreases |parts|
  {
    if |parts| == 1 {
      assert parts + [x] == [parts[0], x];
      assert [parts[0], x][1..] == [x];
    } else {
      assert (parts + [x])[1..] == parts[1..] + [x];
      JoinSnoc(parts[1..], x, sep);
    }
  }

  /** A joined text contains what any of its pieces contains. */
  lemma {:induction false} JoinContains(parts: seq<string>, j: nat, sep: string, sub: string)
    requires j < |parts| && Contains(parts[j], sub)
    ensures Contains(JoinWith(parts, sep), sub)
    decreases j
  {
    if |parts| > 1 {
      if j == 0 {
        ContainsAppendLeft(parts[0], sep + JoinWith(parts[1..], sep), sub);
        assert parts[0] + sep + JoinWith(parts[1..], sep) == parts[0] + (sep + JoinWith(parts[1..], sep));
      } else {
        JoinContains(parts[1..], j - 1, sep, sub);
        ContainsAppendRight(parts[0] + sep, JoinWith(parts[1..], sep), sub);
      }
    }
  }
}
