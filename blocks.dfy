/** The indentation-block primitive shared by the block passes: where a key
    line is, how far the block it opens reaches, and the guarded block that
    replaces it. */
module Blocks {
  import opened GoStrings

  /** leadingWhitespace: the indentation of a line and its width. */
  function LeadingWhitespace(line: string): (r: (string, nat))
    ensures r.1 == |r.0| == IndentWidth(line) && r.0 == line[..r.1]
    ensures AllBlank(r.0)
    ensures r.1 < |line| ==> !IsBlank(line[r.1])
  {
    var n := IndentWidth(line);
    (line[..n], n)
  }

  /** An indented line's indentation is exactly the blanks put in front of it. */
  lemma LeadingWhitespaceOfIndented(w: string, rest: string)
    requires AllBlank(w) && (rest != [] ==> !IsBlank(rest[0]))
    ensures LeadingWhitespace(w + rest) == (w, |w|)
  {
    var line := w + rest;
    assert forall k :: 0 <= k < |w| ==> line[k] == w[k];
    if |w| < |line| {
      assert line[|w|] == rest[0];
    }
    assert line[..|w|] == w;
  }

  /** The rule that ends a block, one per kind of block the passes look for. */
  datatype StopRule =
    | ListBlock    // env: items are "-" lines at the key's own indentation
    | MapBlock     // resources: ended at its own indentation only by a line with no ':' or ending in ':'
    | NestedBlock  // securityContext: everything indented deeper than the key
    | ImageBlock   // image: deeper lines, up to a sibling key at indent + 2

  /** Does this line end a block whose key line is indented k? */
  predicate Stops(rule: StopRule, line: string, k: nat) {
    var t := TrimSpace(line);
    var ind := IndentWidth(line);
    match rule
    case ListBlock => t == [] || ind < k || (ind == k && !HasPrefix(t, "-"))
    case MapBlock =>
      t == [] || ind < k || (ind == k && !Contains(t, ":")) || (ind == k && HasSuffix(t, ":"))
    case NestedBlock => t == [] || ind <= k
    case ImageBlock =>
      t == [] || ind <= k || (ind == k + 2 && HasSuffix(t, ":") && !Contains(t, "imagePullPolicy"))
  }

  /** The end of the block scanned from line `from`: the first line at or after
      `from` that stops it, or the number of lines when none does. */
  function ScanEnd(lines: seq<string>, from: nat, k: nat, rule: StopRule): (end: nat)
    requires from <= |lines|
    ensures from <= end <= |lines|
    decreases |lines| - from
  {
    if from == |lines| then from
    else if Stops(rule, lines[from], k) then from
    else ScanEnd(lines, from + 1, k, rule)
  }

  /** A line at the key's indentation stops a resources: block unless its
      text has a ':' before its last character. */
  lemma MapBlockAtKeyIndent(w: string, t: string)
    requires AllBlank(w) && t != [] && !IsSpace(t[0]) && !IsSpace(t[|t| - 1])
    ensures Stops(MapBlock, w + t, |w|) <==> !Contains(t, ":") || HasSuffix(t, ":")
  {
    LeadingWhitespaceOfIndented(w, t);
    TrimSpaceOfIndented(w, t);
  }

  /** A `key: value` line at the resources: key's own indentation, such as
      `terminationMessagePath: /dev/x`, does not end its block: the block
      runs on over it. */
  lemma ResourcesBlockRunsOverScalarKey(lines: seq<string>, i: nat, w: string, t: string)
    requires i + 1 < |lines| && IndentWidth(lines[i]) == |w| && lines[i + 1] == w + t
    requires AllBlank(w) && t != [] && !IsSpace(t[0]) && !IsSpace(t[|t| - 1])
    requires Contains(t, ":") && !HasSuffix(t, ":")
    ensures BlockEnd(lines, i, MapBlock) > i + 1
  {
    MapBlockAtKeyIndent(w, t);
  }

  /** The block locator's contract: no line before the end stops the block,
      and the end is either the number of lines or a line that stops it. */
  lemma {:induction false} ScanEndSpec(lines: seq<string>, from: nat, k: nat, rule: StopRule)
    requires from <= |lines|
    ensures var end := ScanEnd(lines, from, k, rule);
      && (forall j :: from <= j < end ==> !Stops(rule, lines[j], k))
      && (end < |lines| ==> Stops(rule, lines[end], k))
    decreases |lines| - from
  {
    if from < |lines| && !Stops(rule, lines[from], k) {
      ScanEndSpec(lines, from + 1, k, rule);
      var end := ScanEnd(lines, from + 1, k, rule);
      forall j | from <= j < end ensures !Stops(rule, lines[j], k) {
        if j > from {
        }
      }
    }
  }

  /** The end of the block whose key line is lines[i]. */
  function BlockEnd(lines: seq<string>, i: nat, rule: StopRule): (end: nat)
    requires i < |lines|
    ensures i < end <= |lines|
  {
    ScanEnd(lines, i + 1, IndentWidth(lines[i]), rule)
  }

  /** The scan a block pass runs from the line after its key line. */
  method LocateBlockEnd(lines: seq<string>, i: nat, rule: StopRule) returns (end: nat)
    requires i < |lines|
    ensures end == BlockEnd(lines, i, rule)
  {
    var k := IndentWidth(lines[i]);
    end := i + 1;
    while end < |lines|
      invariant i + 1 <= end <= |lines|
      invariant ScanEnd(lines, end, k, rule) == ScanEnd(lines, i + 1, k, rule)
    {
      ScanEndStep(lines, end, k, rule);
      if Stops(rule, lines[end], k) {
        break;
      }
      end := end + 1;
    }
  }

  /** One step of the scan. */
  lemma ScanEndStep(lines: seq<string>, from: nat, k: nat, rule: StopRule)
    requires from < |lines|
    ensures ScanEnd(lines, from, k, rule) == if Stops(rule, lines[from], k) then from else ScanEnd(lines, from + 1, k, rule)
  {
  }

  /** Where a block ends depends only on the lines from the scan's start on. */
  lemma {:induction false} ScanEndSuffix(a: seq<string>, fa: nat, b: seq<string>, fb: nat, k: nat, rule: StopRule)
    requires fa <= |a| && fb <= |b| && a[fa..] == b[fb..]
    ensures ScanEnd(a, fa, k, rule) - fa == ScanEnd(b, fb, k, rule) - fb
    decreases |a| - fa
  {
    assert |a| - fa == |b| - fb;
    if fa < |a| {
      assert a[fa] == a[fa..][0] == b[fb..][0] == b[fb];
      if !Stops(rule, a[fa], k) {
        assert a[fa + 1..] == a[fa..][1..] == b[fb..][1..] == b[fb + 1..];
        ScanEndSuffix(a, fa + 1, b, fb + 1, k, rule);
      }
    }
  }

  /** Lines that do not stop the block are passed over. */
  lemma {:induction false} ScanEndSkip(lines: seq<string>, from: nat, to: nat, k: nat, rule: StopRule)
    requires from <= to <= |lines|
    requires forall x :: from <= x < to ==> !Stops(rule, lines[x], k)
    ensures ScanEnd(lines, from, k, rule) == ScanEnd(lines, to, k, rule)
    decreases |lines| - from
  {
    if from < to {
      ScanEndSkip(lines, from + 1, to, k, rule);
    }
  }

  /** The scan passes through every line before the end it reaches. */
  lemma {:induction false} ScanEndPrefix(lines: seq<string>, from: nat, to: nat, k: nat, rule: StopRule)
    requires from <= |lines| && from <= to <= ScanEnd(lines, from, k, rule)
    ensures ScanEnd(lines, from, k, rule) == ScanEnd(lines, to, k, rule)
    decreases |lines| - from
  {
    if from < to {
      ScanEndPrefix(lines, from + 1, to, k, rule);
    }
  }

  /** Two texts that agree on the lines before `to` scan alike up to `to`. */
  lemma {:induction false} ScanEndAgree(a: seq<string>, b: seq<string>, from: nat, to: nat, k: nat, rule: StopRule)
    requires from <= to <= |a| && to <= |b| && a[..to] == b[..to]
    requires to <= ScanEnd(a, from, k, rule)
    ensures ScanEnd(b, from, k, rule) == ScanEnd(b, to, k, rule)
    decreases |a| - from
  {
    if from < to {
      assert a[from] == a[..to][from] == b[..to][from] == b[from];
      ScanEndAgree(a, b, from + 1, to, k, rule);
    }
  }

  /** A scan that ends at `to` over lines shared with another sequence ends at
      `to` there too, when the other sequence's line at `to` also stops it. */
  lemma ScanEndAgreeStop(a: seq<string>, b: seq<string>, from: nat, to: nat, k: nat, rule: StopRule)
    requires from <= to < |a| && to < |b| && a[..to] == b[..to]
    requires to == ScanEnd(a, from, k, rule)
    requires Stops(rule, a[to], k) ==> Stops(rule, b[to], k)
    ensures ScanEnd(b, from, k, rule) == to
  {
    ScanEndAgree(a, b, from, to, k, rule);
    ScanEndPrefix(a, from, to, k, rule);
  }

  /** A nested block ended by indentation k sits inside the block of a
      shallower key kj: the shallower scan runs on past it. */
  lemma {:induction false} NestedScanDeeper(lines: seq<string>, from: nat, k: nat, kj: nat)
    requires from <= |lines| && kj <= k
    ensures ScanEnd(lines, from, kj, NestedBlock)
         == ScanEnd(lines, ScanEnd(lines, from, k, NestedBlock), kj, NestedBlock)
    decreases |lines| - from
  {
    if from < |lines| && !Stops(NestedBlock, lines[from], k) {
      assert !Stops(NestedBlock, lines[from], kj);
      NestedScanDeeper(lines, from + 1, k, kj);
    }
  }

  /** How a pass recognises its key line. */
  datatype KeyMatch = ExactKey(key: string) | KeyPrefix(prefix: string)

  predicate MatchesKey(m: KeyMatch, line: string) {
    if m.ExactKey? then TrimSpace(line) == m.key else HasPrefix(TrimSpace(line), m.prefix)
  }

  /** The first key line at or after `from`. */
  function FirstKeyLine(lines: seq<string>, from: nat, m: KeyMatch): (r: Option<nat>)
    requires from <= |lines|
    ensures r.Some? ==> from <= r.value < |lines|
    decreases |lines| - from
  {
    if from == |lines| then None
    else if MatchesKey(m, lines[from]) then Some(from)
    else FirstKeyLine(lines, from + 1, m)
  }

  /** The first key line matches and no line before it does; when there is
      none, no line matches at all. */
  lemma {:induction false} FirstKeyLineSpec(lines: seq<string>, from: nat, m: KeyMatch)
    requires from <= |lines|
    ensures var r := FirstKeyLine(lines, from, m);
      && (r.Some? ==> MatchesKey(m, lines[r.value]))
      && (r.Some? ==> forall j :: from <= j < r.value ==> !MatchesKey(m, lines[j]))
      && (r.None? ==> forall j :: from <= j < |lines| ==> !MatchesKey(m, lines[j]))
    decreases |lines| - from
  {
    if from < |lines| && !MatchesKey(m, lines[from]) {
      FirstKeyLineSpec(lines, from + 1, m);
      var r := FirstKeyLine(lines, from + 1, m);
      assert FirstKeyLine(lines, from, m) == r;
      if r.Some? {
        forall j | from <= j < r.value ensures !MatchesKey(m, lines[j]) {
          if j > from {
          }
        }
      } else {
        forall j | from <= j < |lines| ensures !MatchesKey(m, lines[j]) {
          if j > from {
          }
        }
      }
    }
  }

  /** A line that matches, with none matching before it, is the first key line. */
  lemma {:induction false} FirstKeyLineAt(lines: seq<string>, from: nat, i: nat, m: KeyMatch)
    requires from <= i < |lines| && MatchesKey(m, lines[i])
    requires forall j :: from <= j < i ==> !MatchesKey(m, lines[j])
    ensures FirstKeyLine(lines, from, m) == Some(i)
    decreases i - from
  {
    if from < i {
      FirstKeyLineAt(lines, from + 1, i, m);
    }
  }

  /** The six lines a block pass puts in place of a block: the key line at the
      original indentation, then an if/else at two more columns that renders
      the values entry or, failing it, the fallback. */
  function GuardedBlock(indent: string, key: string, path: string, fallback: string): seq<string>
  {
    var child := indent + "  ";
    [ indent + key,
      child + "{{- if " + path + " }}",
      child + "{{- toYaml " + path + " | nindent " + Itoa(|child|) + " }}",
      child + "{{- else }}",
      child + fallback,
      child + "{{- end }}" ]
  }

  /** The guarded block keeps the key line first, opens its guard on the next
      line with the values path in it, ends with the end directive, and
      introduces no newline of its own. */
  lemma GuardedBlockShape(indent: string, key: string, path: string, fallback: string)
    requires NoNewline(indent) && NoNewline(key) && NoNewline(path) && NoNewline(fallback)
    ensures var b := GuardedBlock(indent, key, path, fallback);
      && |b| == 6
      && b[0] == indent + key
      && Contains(b[1], path)
      && HasSuffix(b[5], "{{- end }}")
      && AllNoNewline(b)
  {
    var child := indent + "  ";
    ContainsMiddle(child + "{{- if ", path, " }}");
    GuardedBlockNoNewline(indent, key, path, fallback);
  }

  /** Each line of the guarded block after the key line is the child
      indentation followed by a directive or the fallback. */
  lemma GuardedBlockChildren(indent: string, key: string, path: string, fallback: string)
    ensures var b := GuardedBlock(indent, key, path, fallback);
      var c := indent + "  ";
      && b[1] == c + ("{{- if " + path + " }}")
      && b[2] == c + ("{{- toYaml " + path + " | nindent " + Itoa(|c|) + " }}")
      && b[3] == c + "{{- else }}"
      && b[4] == c + fallback
      && b[5] == c + "{{- end }}"
  {
  }

  /** A line of blanks c followed by a brace is indented exactly |c| and is
      not blank. */
  lemma ChildLine(c: string, x: string)
    requires AllBlank(c) && x != [] && x[0] == '{'
    ensures IndentWidth(c + x) == |c|
    ensures TrimSpace(c + x) != []
  {
    LeadingWhitespaceOfIndented(c, x);
    assert (c + x)[|c|] == x[0];
  }

  /** The five lines under the key line are non-blank and indented two
      deeper than the key line. */
  lemma GuardedBlockChildLines(indent: string, key: string, path: string, fallback: string)
    requires AllBlank(indent) && fallback != [] && fallback[0] == '{'
    ensures var b := GuardedBlock(indent, key, path, fallback);
      forall x :: 1 <= x < 6 ==> TrimSpace(b[x]) != [] && IndentWidth(b[x]) == |indent| + 2
  {
    var b := GuardedBlock(indent, key, path, fallback);
    var c := indent + "  ";
    assert AllBlank(c);
    forall x | 1 <= x < 6
      ensures TrimSpace(b[x]) != [] && IndentWidth(b[x]) == |indent| + 2
    {
      GuardedBlockChildren(indent, key, path, fallback);
      if x == 1 {
        ChildLine(c, "{{- if " + path + " }}");
      } else if x == 2 {
        ChildLine(c, "{{- toYaml " + path + " | nindent " + Itoa(|c|) + " }}");
      } else if x == 3 {
        ChildLine(c, "{{- else }}");
      } else if x == 4 {
        ChildLine(c, fallback);
      } else {
        ChildLine(c, "{{- end }}");
      }
    }
  }

  lemma GuardedBlockNoNewline(indent: string, key: string, path: string, fallback: string)
    requires NoNewline(indent) && NoNewline(key) && NoNewline(path) && NoNewline(fallback)
    ensures AllNoNewline(GuardedBlock(indent, key, path, fallback))
  {
    var child := indent + "  ";
    var b := GuardedBlock(indent, key, path, fallback);
    var w := Itoa(|child|);
    assert NoNewline(w) by {
      forall k | 0 <= k < |w| ensures w[k] != '\n' {
        assert '0' <= w[k] <= '9';
      }
    }
    assert NoNewline(b[2]) by {
      var p := child + "{{- toYaml " + path + " | nindent ";
      assert NoNewline(p);
      assert b[2] == p + w + " }}";
    }
  }
}
