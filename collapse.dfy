/** The last formatting pass: one blank line right after a line that opens an
    if directive, or right before a line that closes one, is removed. */
module BlankLines {
  import opened GoStrings

  const IfMarker := "{{- if "
  const EndMarker := "{{- end }}"

  predicate IsBlankLine(line: string) {
    TrimSpace(line) == []
  }

  /** The lines the pass keeps, scanning from the first. */
  function Collapse(ls: seq<string>): seq<string>
    decreases |ls|
  {
    if ls == [] then []
    else if Contains(ls[0], IfMarker) then
      if |ls| > 1 && IsBlankLine(ls[1]) then [ls[0]] + Collapse(ls[2..])
      else [ls[0]] + Collapse(ls[1..])
    else if IsBlankLine(ls[0]) && |ls| > 1 && Contains(ls[1], EndMarker) then Collapse(ls[1..])
    else [ls[0]] + Collapse(ls[1..])
  }

  /** The text after the pass. */
  function CollapseSpec(text: string): string {
    Unlines(Collapse(Lines(text)))
  }

  /** a is what is left of b after deleting some of its elements. */
  predicate IsSubsequence(a: seq<string>, b: seq<string>)
    decreases |b|
  {
    a == [] || (b != [] && ((a[0] == b[0] && IsSubsequence(a[1..], b[1..])) || IsSubsequence(a, b[1..])))
  }

  /** The non-blank lines, in order. */
  function NonBlank(ls: seq<string>): seq<string>
    decreases |ls|
  {
    if ls == [] then []
    else (if IsBlankLine(ls[0]) then [] else [ls[0]]) + NonBlank(ls[1..])
  }

  /** The pass only deletes lines. */
  lemma {:induction false} CollapseIsSubsequence(ls: seq<string>)
    ensures IsSubsequence(Collapse(ls), ls)
    decreases |ls|
  {
    if ls != [] {
      var c := Collapse(ls);
      if Contains(ls[0], IfMarker) {
        if |ls| > 1 && IsBlankLine(ls[1]) {
          CollapseIsSubsequence(ls[2..]);
          assert ls[1..][1..] == ls[2..];
          assert IsSubsequence(Collapse(ls[2..]), ls[1..]);
        } else {
          CollapseIsSubsequence(ls[1..]);
        }
        assert c[1..] == Collapse(if |ls| > 1 && IsBlankLine(ls[1]) then ls[2..] else ls[1..]);
      } else if IsBlankLine(ls[0]) && |ls| > 1 && Contains(ls[1], EndMarker) {
        CollapseIsSubsequence(ls[1..]);
      } else {
        CollapseIsSubsequence(ls[1..]);
        assert c[1..] == Collapse(ls[1..]);
      }
    }
  }

  /** Every line the pass deletes is blank: the non-blank lines come out
      unchanged and in order. */
  lemma {:induction false} CollapseKeepsNonBlank(ls: seq<string>)
    ensures NonBlank(Collapse(ls)) == NonBlank(ls)
    decreases |ls|
  {
    if ls != [] {
      if Contains(ls[0], IfMarker) {
        if |ls| > 1 && IsBlankLine(ls[1]) {
          CollapseKeepsNonBlank(ls[2..]);
          assert ls[1..][1..] == ls[2..];
          assert NonBlank(ls[1..]) == NonBlank(ls[2..]);
          assert ([ls[0]] + Collapse(ls[2..]))[1..] == Collapse(ls[2..]);
        } else {
          CollapseKeepsNonBlank(ls[1..]);
          assert ([ls[0]] + Collapse(ls[1..]))[1..] == Collapse(ls[1..]);
        }
      } else if IsBlankLine(ls[0]) && |ls| > 1 && Contains(ls[1], EndMarker) {
        CollapseKeepsNonBlank(ls[1..]);
      } else {
        CollapseKeepsNonBlank(ls[1..]);
        assert ([ls[0]] + Collapse(ls[1..]))[1..] == Collapse(ls[1..]);
      }
    }
  }

  /** Without if or end directives the pass changes nothing. */
  lemma {:induction false} CollapseWithoutDirectives(ls: seq<string>)
    requires forall j :: 0 <= j < |ls| ==> !Contains(ls[j], IfMarker) && !Contains(ls[j], EndMarker)
    ensures Collapse(ls) == ls
    decreases |ls|
  {
    if ls != [] {
      CollapseWithoutDirectives(ls[1..]);
      assert [ls[0]] + ls[1..] == ls;
    }
  }

  /** A blank line holds no directive: every directive starts with a
      character that is not white space. */
  lemma {:induction false} BlankHasNoMarker(line: string, marker: string)
    requires IsBlankLine(line) && marker != [] && !IsSpace(marker[0])
    ensures !Contains(line, marker)
    decreases |line|
  {
    assert AllSpace(line);
    if line != [] {
      assert line[0] != marker[0];
      assert IsBlankLine(line[1..]) by {
        forall k | 0 <= k < |line[1..]| ensures IsSpace(line[1..][k]) {
          assert line[1..][k] == line[k + 1];
        }
      }
      BlankHasNoMarker(line[1..], marker);
    }
  }

  /** A blank line right after an if line is removed, and the scan goes on
      after it. */
  lemma CollapseRemovesBlankAfterIf(ifLine: string, blank: string, rest: seq<string>)
    requires Contains(ifLine, IfMarker) && IsBlankLine(blank)
    ensures Collapse([ifLine, blank] + rest) == [ifLine] + Collapse(rest)
  {
    assert ([ifLine, blank] + rest)[2..] == rest;
  }

  /** A blank line right before an end line is removed (a blank line
      cannot open an if directive). */
  lemma CollapseRemovesBlankBeforeEnd(ls: seq<string>, i: nat)
    requires i + 1 < |ls| && IsBlankLine(ls[i]) && Contains(ls[i + 1], EndMarker)
    ensures Collapse(ls[i..]) == Collapse(ls[i + 1..])
  {
    BlankHasNoMarker(ls[i], IfMarker);
    CollapseDropBeforeEnd(ls, i);
  }



  /** The steps of the blank-line pass at line i: an if line followed by a
      blank line skips that blank line, ... */
  lemma CollapseSkipAfterIf(ls: seq<string>, i: nat)
    requires i + 1 < |ls| && Contains(ls[i], IfMarker) && IsBlankLine(ls[i + 1])
    ensures Collapse(ls[i..]) == [ls[i]] + Collapse(ls[i + 2..])
  {
    assert ls[i..][2..] == ls[i + 2..];
  }

  /** ... a blank line before an end line is dropped, ... */
  lemma CollapseDropBeforeEnd(ls: seq<string>, i: nat)
    requires i + 1 < |ls| && !Contains(ls[i], IfMarker) && IsBlankLine(ls[i]) && Contains(ls[i + 1], EndMarker)
    ensures Collapse(ls[i..]) == Collapse(ls[i + 1..])
  {
    assert ls[i..][1..] == ls[i + 1..];
  }

  /** ... and every other line is kept. */
  lemma CollapseKeep(ls: seq<string>, i: nat)
    requires i < |ls|
    requires Contains(ls[i], IfMarker) ==> !(i + 1 < |ls| && IsBlankLine(ls[i + 1]))
    requires !Contains(ls[i], IfMarker) ==> !(IsBlankLine(ls[i]) && i + 1 < |ls| && Contains(ls[i + 1], EndMarker))
    ensures Collapse(ls[i..]) == [ls[i]] + Collapse(ls[i + 1..])
  {
    assert ls[i..][1..] == ls[i + 1..];
  }
}
