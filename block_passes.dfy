/** What the line-oriented block passes of the templater compute: the
    environment, resources, pod and container security context, and image
    passes, each as a function of the manifest text. */
module BlockPasses {
  import opened GoStrings
  import opened Blocks

  /** The passes that touch the manager container look for this first. */
  const ManagerMarker := "name: manager"

  lemma AllBlankNoNewline(w: string)
    requires AllBlank(w)
    ensures NoNewline(w)
  {
    forall k | 0 <= k < |w| ensures w[k] != '\n' {
      assert IsBlank(w[k]);
    }
  }

  /** A pass that finds its key line at index i of the old lines finds it at
      the same index of new lines that agree up to i and still match there. */
  lemma FirstKeyLineKept(lines: seq<string>, nl: seq<string>, i: nat, m: KeyMatch)
    requires FirstKeyLine(lines, 0, m) == Some(i)
    requires i < |nl| && nl[..i] == lines[..i] && MatchesKey(m, nl[i])
    ensures FirstKeyLine(nl, 0, m) == Some(i)
  {
    FirstKeyLineSpec(lines, 0, m);
    forall j | 0 <= j < i ensures !MatchesKey(m, nl[j]) {
      assert nl[j] == nl[..i][j] == lines[..i][j] == lines[j];
    }
    FirstKeyLineAt(nl, 0, i, m);
  }

  // ---------------------------------------------------------------------
  // env: and resources:

  /** The environment-variable pass and the resources pass differ only in
      their key, the rule that ends the block, the values entry and the
      fallback rendered when the entry is empty. */
  datatype KeyBlockPass = EnvPass | ResourcesPass {
    function Key(): string {
      if EnvPass? then "env:" else "resources:"
    }
    function Rule(): StopRule {
      if EnvPass? then ListBlock else MapBlock
    }
    function ValuesPath(): string {
      if EnvPass? then ".Values.controllerManager.env" else ".Values.controllerManager.resources"
    }
    function Fallback(): string {
      if EnvPass? then "[]" else "{}"
    }
    /** The early return at the top of each pass. */
    predicate Applies(text: string) {
      Contains(text, ManagerMarker) && (EnvPass? || Contains(text, "resources:"))
    }
  }

  /** The pass already ran when the line after the key mentions its values entry. */
  predicate KeyBlockGuarded(lines: seq<string>, i: nat, p: KeyBlockPass) {
    i + 1 < |lines| && Contains(lines[i + 1], p.ValuesPath())
  }

  function KeyBlockReplacement(line: string, p: KeyBlockPass): seq<string> {
    GuardedBlock(LeadingWhitespace(line).0, p.Key(), p.ValuesPath(), p.Fallback())
  }

  /** The text after the env (or resources) pass: the first key line and its
      block are replaced by the guarded block, unless the pass does not apply,
      there is no key line or the guard shows it already ran. */
  function KeyBlockSpec(text: string, p: KeyBlockPass): string {
    if !p.Applies(text) then text
    else
      var lines := Lines(text);
      var first := FirstKeyLine(lines, 0, ExactKey(p.Key()));
      if first.None? then text
      else
        var i := first.value;
        if KeyBlockGuarded(lines, i, p) then text
        else Unlines(lines[..i] + KeyBlockReplacement(lines[i], p) + lines[BlockEnd(lines, i, p.Rule())..])
  }

  /** Splitting the splice of line-free pieces gives the spliced lines. */
  lemma SpliceLines(lines: seq<string>, i: nat, block: seq<string>, end: nat)
    requires i < end <= |lines| && AllNoNewline(lines) && AllNoNewline(block) && |block| >= 1
    ensures Lines(Unlines(lines[..i] + block + lines[end..])) == lines[..i] + block + lines[end..]
  {
    var s := lines[..i] + block + lines[end..];
    assert forall j :: 0 <= j < |s| ==> NoNewline(s[j]) by {
      forall j | 0 <= j < |s| ensures NoNewline(s[j]) {
        if j < i { assert s[j] == lines[j]; }
        else if j < i + |block| { assert s[j] == block[j - i]; }
        else { assert s[j] == lines[end + (j - i - |block|)]; }
      }
    }
    SplitJoinLines(s);
  }

  lemma KeyBlockReplacementShape(line: string, p: KeyBlockPass)
    ensures var b := KeyBlockReplacement(line, p);
      && |b| == 6 && AllNoNewline(b)
      && b[0] == LeadingWhitespace(line).0 + p.Key()
      && Contains(b[1], p.ValuesPath())
  {
    var w := LeadingWhitespace(line).0;
    AllBlankNoNewline(w);
    assert NoNewline(p.Key()) && NoNewline(p.ValuesPath()) && NoNewline(p.Fallback()) by {
      if p.EnvPass? {
        assert NoNewline("env:") && NoNewline(".Values.controllerManager.env") && NoNewline("[]");
      } else {
        assert NoNewline("resources:") && NoNewline(".Values.controllerManager.resources") && NoNewline("{}");
      }
    }
    GuardedBlockShape(w, p.Key(), p.ValuesPath(), p.Fallback());
  }

  /** When the pass rewrites, the output lines are the lines before the first
      key line, the six guarded lines, and the lines from the end of the block
      on. */
  lemma KeyBlockSplice(text: string, p: KeyBlockPass, i: nat)
    requires p.Applies(text)
    requires FirstKeyLine(Lines(text), 0, ExactKey(p.Key())) == Some(i)
    requires !KeyBlockGuarded(Lines(text), i, p)
    ensures Lines(KeyBlockSpec(text, p)) ==
      Lines(text)[..i] + KeyBlockReplacement(Lines(text)[i], p)
        + Lines(text)[BlockEnd(Lines(text), i, p.Rule())..]
  {
    var lines := Lines(text);
    LinesHaveNoNewline(text);
    KeyBlockReplacementShape(lines[i], p);
    SpliceLines(lines, i, KeyBlockReplacement(lines[i], p), BlockEnd(lines, i, p.Rule()));
  }

  /** The pass leaves text alone whose first key line is followed by its guard. */
  lemma KeyBlockGuardHolds(text: string, p: KeyBlockPass, i: nat)
    requires FirstKeyLine(Lines(text), 0, ExactKey(p.Key())) == Some(i)
    requires KeyBlockGuarded(Lines(text), i, p)
    ensures KeyBlockSpec(text, p) == text
  {
  }

  /** The rewritten key line is recognised again, still as the first key line. */
  lemma KeyBlockKeyLineKept(line: string, p: KeyBlockPass)
    ensures MatchesKey(ExactKey(p.Key()), KeyBlockReplacement(line, p)[0])
  {
    var w := LeadingWhitespace(line).0;
    KeyBlockReplacementShape(line, p);
    if p.EnvPass? {
      TrimSpaceOfIndented(w, "env:");
    } else {
      TrimSpaceOfIndented(w, "resources:");
    }
  }

  /** In lines spliced around the guarded block, the first key line is where
      it was and its guard holds. */
  lemma KeyBlockRewrittenLines(lines: seq<string>, nl: seq<string>, p: KeyBlockPass, i: nat, rest: seq<string>)
    requires FirstKeyLine(lines, 0, ExactKey(p.Key())) == Some(i)
    requires nl == lines[..i] + KeyBlockReplacement(lines[i], p) + rest
    ensures FirstKeyLine(nl, 0, ExactKey(p.Key())) == Some(i)
    ensures KeyBlockGuarded(nl, i, p)
  {
    var b := KeyBlockReplacement(lines[i], p);
    KeyBlockReplacementShape(lines[i], p);
    assert nl[..i] == lines[..i];
    assert nl[i] == b[0];
    assert nl[i + 1] == b[1];
    KeyBlockKeyLineKept(lines[i], p);
    FirstKeyLineKept(lines, nl, i, ExactKey(p.Key()));
  }

  /** After a rewrite the first key line is where it was, and its guard holds. */
  lemma KeyBlockRewritten(text: string, p: KeyBlockPass, i: nat)
    requires p.Applies(text)
    requires FirstKeyLine(Lines(text), 0, ExactKey(p.Key())) == Some(i)
    requires !KeyBlockGuarded(Lines(text), i, p)
    ensures FirstKeyLine(Lines(KeyBlockSpec(text, p)), 0, ExactKey(p.Key())) == Some(i)
    ensures KeyBlockGuarded(Lines(KeyBlockSpec(text, p)), i, p)
  {
    var lines := Lines(text);
    KeyBlockSplice(text, p, i);
    KeyBlockRewrittenLines(lines, Lines(KeyBlockSpec(text, p)), p, i, lines[BlockEnd(lines, i, p.Rule())..]);
  }

  /** Running the env (or resources) pass twice is running it once: the
      rewritten key line is still the first one and its guard now holds. */
  lemma KeyBlockIdempotent(text: string, p: KeyBlockPass)
    ensures KeyBlockSpec(KeyBlockSpec(text, p), p) == KeyBlockSpec(text, p)
  {
    var out := KeyBlockSpec(text, p);
    if out != text {
      var i := FirstKeyLine(Lines(text), 0, ExactKey(p.Key())).value;
      KeyBlockRewritten(text, p, i);
      KeyBlockGuardHolds(out, p, i);
    }
  }

  // ---------------------------------------------------------------------
  // securityContext: (pod level and container level)

  const PodSecurityPath := ".Values.controllerManager.podSecurityContext"
  const ContainerSecurityPath := ".Values.controllerManager.securityContext"

  function SecurityPath(pod: bool): string {
    if pod then PodSecurityPath else ContainerSecurityPath
  }

  lemma SecurityPathNoNewline(pod: bool)
    ensures NoNewline(SecurityPath(pod))
  {
    if pod {
      assert NoNewline(PodSecurityPath);
    } else {
      assert NoNewline(ContainerSecurityPath);
    }
  }

  predicate IsSecurityContextLine(line: string) {
    TrimSpace(line) == "securityContext:"
  }

  /** Whether the line that ends a securityContext block is serviceAccountName:
      tells a pod-level context from a container-level one. */
  predicate EndsAtServiceAccount(lines: seq<string>, end: nat)
    requires end < |lines|
  {
    HasPrefix(TrimSpace(lines[end]), "serviceAccountName:")
  }

  /** The scan of both security context passes from line `from`: the first
      securityContext: line whose block is of the wanted level, giving up at
      the first such line whose block runs to the end of the text. */
  function SecurityContextFind(lines: seq<string>, from: nat, pod: bool): (r: Option<(nat, nat)>)
    requires from <= |lines|
    ensures r.Some? ==> from <= r.value.0 < r.value.1 < |lines|
    decreases |lines| - from
  {
    if from == |lines| then None
    else if !IsSecurityContextLine(lines[from]) then SecurityContextFind(lines, from + 1, pod)
    else
      var end := BlockEnd(lines, from, NestedBlock);
      if end >= |lines| then None
      else if EndsAtServiceAccount(lines, end) != pod then SecurityContextFind(lines, from + 1, pod)
      else Some((from, end))
  }

  function Min(a: int, b: int): int {
    if a < b then a else b
  }

  /** The re-entry guards: the pod pass looks at the line after the key, the
      container pass at the key line through five lines past the block end. */
  predicate SecurityContextGuarded(lines: seq<string>, i: nat, end: nat, pod: bool)
    requires i < end <= |lines|
  {
    if pod then i + 1 < |lines| && Contains(lines[i + 1], PodSecurityPath)
    else Contains(Unlines(lines[i..Min(end + 5, |lines|)]), ContainerSecurityPath)
  }

  predicate SecurityContextApplies(text: string, pod: bool) {
    (pod || Contains(text, ManagerMarker)) && Contains(text, "securityContext:")
  }

  function SecurityContextReplacement(line: string, pod: bool): seq<string> {
    GuardedBlock(LeadingWhitespace(line).0, "securityContext:", SecurityPath(pod), "{}")
  }

  /** The text after the pod (pod = true) or container (pod = false)
      security context pass. */
  function SecurityContextSpec(text: string, pod: bool): string {
    if !SecurityContextApplies(text, pod) then text
    else
      var lines := Lines(text);
      var found := SecurityContextFind(lines, 0, pod);
      if found.None? then text
      else
        var (i, end) := found.value;
        if SecurityContextGuarded(lines, i, end, pod) then text
        else Unlines(lines[..i] + SecurityContextReplacement(lines[i], pod) + lines[end..])
  }

  /** What the scan finds: a securityContext: line whose nested block ends,
      before the end of the text, at a line that starts with
      serviceAccountName: exactly for the pod pass. */
  lemma {:induction false} SecurityContextFound(lines: seq<string>, from: nat, pod: bool, i: nat, end: nat)
    requires from <= |lines|
    requires SecurityContextFind(lines, from, pod) == Some((i, end))
    ensures IsSecurityContextLine(lines[i])
    ensures end == BlockEnd(lines, i, NestedBlock)
    ensures EndsAtServiceAccount(lines, end) == pod
    decreases |lines| - from
  {
    if from < |lines| && SecurityContextFind(lines, from + 1, pod) == Some((i, end)) && i != from {
      SecurityContextFound(lines, from + 1, pod, i, end);
    }
  }

  /** A line the scan of the given level passes over: not a securityContext:
      line, or one whose block ends inside the text at a line of the other
      level. */
  predicate Skipped(lines: seq<string>, j: nat, pod: bool)
    requires j < |lines|
  {
    IsSecurityContextLine(lines[j]) ==>
      BlockEnd(lines, j, NestedBlock) < |lines| &&
      EndsAtServiceAccount(lines, BlockEnd(lines, j, NestedBlock)) != pod
  }

  /** One step of the scan past a line that is not the one it finds. */
  lemma SecurityContextStep(lines: seq<string>, from: nat, pod: bool, i: nat, end: nat)
    requires from < i && from <= |lines|
    requires SecurityContextFind(lines, from, pod) == Some((i, end))
    ensures SecurityContextFind(lines, from + 1, pod) == Some((i, end))
    ensures Skipped(lines, from, pod)
  {
  }

  /** Every line in [from, to) is one the scan passes over. */
  predicate AllSkipped(lines: seq<string>, from: nat, to: nat, pod: bool)
    requires to <= |lines|
    decreases if from < to then to - from else 0
  {
    from >= to || (Skipped(lines, from, pod) && AllSkipped(lines, from + 1, to, pod))
  }

  lemma AllSkippedCons(lines: seq<string>, from: nat, to: nat, pod: bool)
    requires from < to <= |lines|
    requires Skipped(lines, from, pod) && AllSkipped(lines, from + 1, to, pod)
    ensures AllSkipped(lines, from, to, pod)
  {
  }

  /** Every securityContext: line the scan passes over has a block that ends
      inside the text at a line of the other level. */
  lemma {:induction false} SecurityContextSkipped(lines: seq<string>, from: nat, pod: bool, i: nat, end: nat)
    requires from <= |lines|
    requires SecurityContextFind(lines, from, pod) == Some((i, end))
    ensures AllSkipped(lines, from, i, pod)
    decreases |lines| - from
  {
    if from < i {
      SecurityContextStep(lines, from, pod, i, end);
      SecurityContextSkipped(lines, from + 1, pod, i, end);
      AllSkippedCons(lines, from, i, pod);
    }
  }

  /** At the first securityContext: line whose block ends inside the text,
      exactly one of the two passes takes that block: the pod pass when the
      next line is serviceAccountName:, the container pass otherwise. */
  lemma SecurityContextComplementary(lines: seq<string>, i: nat)
    requires FirstKeyLine(lines, 0, ExactKey("securityContext:")) == Some(i)
    requires BlockEnd(lines, i, NestedBlock) < |lines|
    ensures var end := BlockEnd(lines, i, NestedBlock);
      var pod := EndsAtServiceAccount(lines, end);
      && SecurityContextFind(lines, 0, pod) == Some((i, end))
      && SecurityContextFind(lines, 0, !pod) != Some((i, end))
  {
    FirstKeyLineSpec(lines, 0, ExactKey("securityContext:"));
    var end := BlockEnd(lines, i, NestedBlock);
    var pod := EndsAtServiceAccount(lines, end);
    SkipToFirst(lines, 0, i, pod);
    SkipToFirst(lines, 0, i, !pod);
  }

  lemma {:induction false} SkipToFirst(lines: seq<string>, from: nat, i: nat, pod: bool)
    requires from <= i < |lines|
    requires forall j :: from <= j < i ==> !IsSecurityContextLine(lines[j])
    ensures SecurityContextFind(lines, from, pod) == SecurityContextFind(lines, i, pod)
    decreases i - from
  {
    if from < i {
      var next := SecurityContextFind(lines, from + 1, pod);
      SkipToFirst(lines, from + 1, i, pod);
      assert !IsSecurityContextLine(lines[from]);
      SecurityContextSkipLine(lines, from, pod);
      assert SecurityContextFind(lines, from, pod) == next;
    }
  }

  /** The scan steps over a line that is not a securityContext: line. */
  lemma SecurityContextSkipLine(lines: seq<string>, from: nat, pod: bool)
    requires from < |lines| && !IsSecurityContextLine(lines[from])
    ensures SecurityContextFind(lines, from, pod) == SecurityContextFind(lines, from + 1, pod)
  {
  }

  /** Both passes give up, changing nothing, when the first securityContext:
      block runs to the end of the text. */
  lemma SecurityContextStopsAtEnd(text: string, pod: bool, i: nat)
    requires FirstKeyLine(Lines(text), 0, ExactKey("securityContext:")) == Some(i)
    requires BlockEnd(Lines(text), i, NestedBlock) == |Lines(text)|
    ensures SecurityContextSpec(text, pod) == text
  {
    var lines := Lines(text);
    FirstKeyLineSpec(lines, 0, ExactKey("securityContext:"));
    SkipToFirst(lines, 0, i, pod);
  }

  /** When a security context pass rewrites, the output lines are the lines
      before the block, the six guarded lines and the lines from the block's
      end on; when its guard holds it changes nothing. */
  lemma SecurityContextSplice(text: string, pod: bool, i: nat, end: nat)
    requires SecurityContextApplies(text, pod)
    requires SecurityContextFind(Lines(text), 0, pod) == Some((i, end))
    ensures SecurityContextGuarded(Lines(text), i, end, pod) ==> SecurityContextSpec(text, pod) == text
    ensures !SecurityContextGuarded(Lines(text), i, end, pod) ==>
      var lines := Lines(text);
      Lines(SecurityContextSpec(text, pod)) == lines[..i] + SecurityContextReplacement(lines[i], pod) + lines[end..]
  {
    var lines := Lines(text);
    if !SecurityContextGuarded(lines, i, end, pod) {
      LinesHaveNoNewline(text);
      SecurityContextReplacementShape(lines[i], pod);
      SpliceLines(lines, i, SecurityContextReplacement(lines[i], pod), end);
    }
  }

  lemma SecurityContextReplacementShape(line: string, pod: bool)
    ensures |SecurityContextReplacement(line, pod)| == 6
    ensures AllNoNewline(SecurityContextReplacement(line, pod))
  {
    var w := LeadingWhitespace(line).0;
    AllBlankNoNewline(w);
    SecurityPathNoNewline(pod);
    assert NoNewline("securityContext:") && NoNewline("{}");
    GuardedBlockNoNewline(w, "securityContext:", SecurityPath(pod), "{}");
  }

  /** Six lines that can stand for the block of a key line: the first trims
      and indents as the key line, the other five are non-blank and indented
      two deeper. */
  predicate FitsKeyLine(r: seq<string>, line: string) {
    && |r| == 6
    && TrimSpace(r[0]) == TrimSpace(line)
    && IndentWidth(r[0]) == IndentWidth(line)
    && (forall x :: 1 <= x < 6 ==> TrimSpace(r[x]) != [] && IndentWidth(r[x]) == IndentWidth(line) + 2)
  }

  /** The guarded securityContext: block fits its key line and opens its
      guard on its second line. */
  lemma SecurityContextReplacementLines(line: string, pod: bool)
    requires IsSecurityContextLine(line)
    ensures FitsKeyLine(SecurityContextReplacement(line, pod), line)
    ensures Contains(SecurityContextReplacement(line, pod)[1], SecurityPath(pod))
  {
    var w := LeadingWhitespace(line).0;
    var path := SecurityPath(pod);
    var r := SecurityContextReplacement(line, pod);
    var key := "securityContext:";
    AllBlankNoNewline(w);
    SecurityPathNoNewline(pod);
    GuardedBlockShape(w, key, path, "{}");
    TrimSpaceOfIndented(w, key);
    LeadingWhitespaceOfIndented(w, key);
    GuardedBlockChildLines(w, key, path, "{}");
  }

  /** The scan passes over the lines from `from` to `to` when each is one it
      skips. */
  lemma {:induction false} FindAfterSkipped(lines: seq<string>, from: nat, to: nat, pod: bool)
    requires from <= to <= |lines|
    requires AllSkipped(lines, from, to, pod)
    ensures SecurityContextFind(lines, from, pod) == SecurityContextFind(lines, to, pod)
    decreases |lines| - from
  {
    if from < to {
      FindAfterSkipped(lines, from + 1, to, pod);
    }
  }

  /** nl is lines with the nested block of the securityContext: line at i
      replaced by six lines r that fit that line. */
  predicate SplicedAt(lines: seq<string>, nl: seq<string>, r: seq<string>, i: nat, end: nat)
  {
    && i < end < |lines|
    && IsSecurityContextLine(lines[i])
    && end == BlockEnd(lines, i, NestedBlock)
    && FitsKeyLine(r, lines[i])
    && nl == lines[..i] + r + lines[end..]
  }

  /** In the spliced lines the nested block of line i ends where the old one
      ended. */
  lemma SplicedBlockEnd(lines: seq<string>, nl: seq<string>, r: seq<string>, i: nat, end: nat)
    requires SplicedAt(lines, nl, r, i, end)
    ensures BlockEnd(nl, i, NestedBlock) == i + 6
    ensures nl[i] == r[0] && nl[i + 1] == r[1] && nl[i + 6] == lines[end]
  {
    var k := IndentWidth(lines[i]);
    ScanEndPrefix(lines, i + 1, end, k, NestedBlock);
    assert nl[i] == r[0];
    forall x | i + 1 <= x < i + 6 ensures !Stops(NestedBlock, nl[x], k) {
      assert nl[x] == r[x - i];
    }
    ScanEndSkip(nl, i + 1, i + 6, k, NestedBlock);
    assert nl[i + 6] == lines[end];
  }

  /** The splice keeps the lines before i and puts the new key line at i. */
  lemma SplicedHead(lines: seq<string>, nl: seq<string>, r: seq<string>, i: nat, end: nat)
    requires SplicedAt(lines, nl, r, i, end)
    ensures i < |nl| && nl[..i] == lines[..i] && nl[i] == r[0]
  {
    assert nl[..i] == lines[..i];
    assert nl[i] == r[0];
  }

  /** A block that ends at or before line i reads only lines the splice keeps,
      so it ends at the same line. */
  lemma SplicedShortBlockEnd(lines: seq<string>, nl: seq<string>, i: nat, j: nat)
    requires j < i < |nl| && i < |lines| && nl[..i] == lines[..i]
    requires TrimSpace(nl[i]) == TrimSpace(lines[i]) && IndentWidth(nl[i]) == IndentWidth(lines[i])
    requires BlockEnd(lines, j, NestedBlock) <= i
    ensures BlockEnd(nl, j, NestedBlock) == BlockEnd(lines, j, NestedBlock)
  {
    var endj := BlockEnd(lines, j, NestedBlock);
    var kj := IndentWidth(lines[j]);
    assert nl[j] == nl[..i][j] == lines[j];
    assert lines[..endj] == lines[..i][..endj] == nl[..i][..endj] == nl[..endj];
    if endj < i {
      assert nl[endj] == nl[..i][endj] == lines[endj];
    }
    ScanEndAgreeStop(lines, nl, j + 1, endj, kj, NestedBlock);
  }

  /** A securityContext: line before i whose block ends at or before i ends at
      the same line after the splice, and that line trims as before. */
  lemma SplicedShortBlock(lines: seq<string>, nl: seq<string>, r: seq<string>, i: nat, end: nat, j: nat)
    requires SplicedAt(lines, nl, r, i, end)
    requires j < i && IsSecurityContextLine(lines[j])
    requires BlockEnd(lines, j, NestedBlock) <= i
    ensures BlockEnd(nl, j, NestedBlock) == BlockEnd(lines, j, NestedBlock)
    ensures TrimSpace(nl[BlockEnd(lines, j, NestedBlock)]) == TrimSpace(lines[BlockEnd(lines, j, NestedBlock)])
  {
    var endj := BlockEnd(lines, j, NestedBlock);
    SplicedHead(lines, nl, r, i, end);
    assert TrimSpace(nl[i]) == TrimSpace(lines[i]) && IndentWidth(nl[i]) == IndentWidth(lines[i]);
    SplicedShortBlockEnd(lines, nl, i, j);
    if endj < i {
      assert nl[endj] == nl[..i][endj] == lines[endj];
    }
  }

  /** A block opened at j that reaches past the non-blank key line i, whose
      own block ends at end, runs on over that whole block. */
  lemma LongBlockCovers(lines: seq<string>, i: nat, end: nat, j: nat)
    requires j < i < end <= |lines| && end == BlockEnd(lines, i, NestedBlock)
    requires TrimSpace(lines[i]) != [] && BlockEnd(lines, j, NestedBlock) > i
    ensures IndentWidth(lines[j]) < IndentWidth(lines[i])
    ensures BlockEnd(lines, j, NestedBlock) == ScanEnd(lines, end, IndentWidth(lines[j]), NestedBlock)
  {
    var k := IndentWidth(lines[i]);
    var kj := IndentWidth(lines[j]);
    ScanEndPrefix(lines, j + 1, i, kj, NestedBlock);
    assert !Stops(NestedBlock, lines[i], kj);
    NestedScanDeeper(lines, i + 1, k, kj);
  }

  /** A scan for a key shallower than line i passes over the six spliced
      lines and then goes on as it would have from the old block's end. */
  lemma SplicedPassOver(lines: seq<string>, nl: seq<string>, r: seq<string>, i: nat, end: nat, kj: nat)
    requires SplicedAt(lines, nl, r, i, end)
    requires kj < IndentWidth(lines[i])
    ensures ScanEnd(nl, i, kj, NestedBlock) - (i + 6) == ScanEnd(lines, end, kj, NestedBlock) - end
  {
    forall x | i <= x < i + 6 ensures !Stops(NestedBlock, nl[x], kj) {
      assert nl[x] == r[x - i];
    }
    ScanEndSkip(nl, i, i + 6, kj, NestedBlock);
    assert nl[i + 6..] == lines[end..];
    ScanEndSuffix(nl, i + 6, lines, end, kj, NestedBlock);
  }

  /** A securityContext: line before i whose block reaches past i covers the
      whole old block; after the splice its block ends at the same line,
      moved by the change in length. */
  lemma SplicedLongBlock(lines: seq<string>, nl: seq<string>, r: seq<string>, i: nat, end: nat, j: nat)
    requires SplicedAt(lines, nl, r, i, end)
    requires j < i && IsSecurityContextLine(lines[j])
    requires BlockEnd(lines, j, NestedBlock) > i
    ensures BlockEnd(lines, j, NestedBlock) >= end
    ensures BlockEnd(nl, j, NestedBlock) == BlockEnd(lines, j, NestedBlock) - end + i + 6
  {
    var kj := IndentWidth(lines[j]);
    LongBlockCovers(lines, i, end, j);
    assert nl[j] == lines[j];
    assert lines[..i] == nl[..i];
    ScanEndAgree(lines, nl, j + 1, i, kj, NestedBlock);
    SplicedPassOver(lines, nl, r, i, end, kj);
  }

  /** A line the scan passed over before the spliced block is still passed
      over after the splice. */
  lemma SplicedSkipped(lines: seq<string>, nl: seq<string>, r: seq<string>, i: nat, end: nat, pod: bool, j: nat)
    requires SplicedAt(lines, nl, r, i, end)
    requires j < i && Skipped(lines, j, pod)
    ensures Skipped(nl, j, pod)
  {
    assert nl[j] == lines[j];
    if IsSecurityContextLine(lines[j]) {
      var endj := BlockEnd(lines, j, NestedBlock);
      if endj <= i {
        SplicedShortBlock(lines, nl, r, i, end, j);
      } else {
        SplicedLongBlock(lines, nl, r, i, end, j);
        assert nl[BlockEnd(nl, j, NestedBlock)] == lines[endj];
      }
    }
  }

  lemma {:induction false} SplicedAllSkipped(lines: seq<string>, nl: seq<string>, r: seq<string>, i: nat, end: nat, pod: bool, from: nat)
    requires SplicedAt(lines, nl, r, i, end)
    requires from <= i && AllSkipped(lines, from, i, pod)
    ensures AllSkipped(nl, from, i, pod)
    decreases i - from
  {
    if from < i {
      SplicedSkipped(lines, nl, r, i, end, pod, from);
      SplicedAllSkipped(lines, nl, r, i, end, pod, from + 1);
    }
  }

  /** After a splice at the block the scan found, the scan finds the spliced
      block in its place. */
  lemma SplicedFind(lines: seq<string>, nl: seq<string>, r: seq<string>, i: nat, end: nat, pod: bool)
    requires SplicedAt(lines, nl, r, i, end)
    requires SecurityContextFind(lines, 0, pod) == Some((i, end))
    ensures SecurityContextFind(nl, 0, pod) == Some((i, i + 6))
  {
    SecurityContextFound(lines, 0, pod, i, end);
    SecurityContextSkipped(lines, 0, pod, i, end);
    SplicedBlockEnd(lines, nl, r, i, end);
    SplicedAllSkipped(lines, nl, r, i, end, pod, 0);
    FindAfterSkipped(nl, 0, i, pod);
  }

  /** A spliced block whose second line carries the values path passes the
      guard of its level. */
  lemma SplicedGuarded(lines: seq<string>, nl: seq<string>, r: seq<string>, i: nat, end: nat, pod: bool)
    requires SplicedAt(lines, nl, r, i, end)
    requires Contains(r[1], SecurityPath(pod))
    ensures SecurityContextGuarded(nl, i, i + 6, pod)
  {
    SplicedBlockEnd(lines, nl, r, i, end);
    if !pod {
      var m := Min(i + 6 + 5, |nl|);
      assert nl[i..m][1] == r[1];
      JoinContains(nl[i..m], 1, "\n", ContainerSecurityPath);
    }
  }

  /** Running a security context pass twice is running it once: the scan
      finds the rewritten block where the old one was, and its guard holds. */
  lemma SecurityContextIdempotent(text: string, pod: bool)
    ensures SecurityContextSpec(SecurityContextSpec(text, pod), pod) == SecurityContextSpec(text, pod)
  {
    var out := SecurityContextSpec(text, pod);
    if out != text {
      var lines := Lines(text);
      var (i, end) := SecurityContextFind(lines, 0, pod).value;
      var r := SecurityContextReplacement(lines[i], pod);
      SecurityContextFound(lines, 0, pod, i, end);
      SecurityContextSplice(text, pod, i, end);
      SecurityContextReplacementLines(lines[i], pod);
      var nl := Lines(out);
      assert SplicedAt(lines, nl, r, i, end);
      SplicedFind(lines, nl, r, i, end, pod);
      SplicedGuarded(lines, nl, r, i, end, pod);
    }
  }

  // ---------------------------------------------------------------------
  // image:

  const ImageRepoPath := ".Values.controllerManager.image.repository"
  const ImageTagPath := ".Values.controllerManager.image.tag"
  const ImagePullPolicyPath := ".Values.controllerManager.image.pullPolicy"

  /** The image line without its indentation. */
  function ImageBody(): string {
    "image: \"{{ " + ImageRepoPath + " }}:{{ " + ImageTagPath + " }}\""
  }

  /** The two lines the image pass emits at the image line's indentation. */
  function ImageLines(indent: string): seq<string> {
    [ indent + ImageBody(),
      indent + "imagePullPolicy: {{ " + ImagePullPolicyPath + " }}" ]
  }

  /** One imagePullPolicy: line right after the block is dropped. */
  function DropPullPolicy(rest: seq<string>): seq<string> {
    if |rest| > 0 && HasPrefix(TrimSpace(rest[0]), "imagePullPolicy:") then rest[1..] else rest
  }

  /** The filter's test on one line of the image block. */
  predicate MentionsPullPolicy(line: string) {
    Contains(TrimSpace(line), "imagePullPolicy")
  }

  /** The image block with its imagePullPolicy lines filtered out. */
  function WithoutPullPolicy(ls: seq<string>): (r: seq<string>)
    ensures |r| <= |ls|
    decreases |ls|
  {
    if ls == [] then []
    else
      var last := ls[|ls| - 1];
      WithoutPullPolicy(ls[..|ls| - 1]) + (if MentionsPullPolicy(last) then [] else [last])
  }

  /** The filter keeps no line that mentions imagePullPolicy. */
  lemma {:induction false} WithoutPullPolicyDrops(ls: seq<string>)
    ensures forall x :: 0 <= x < |WithoutPullPolicy(ls)| ==> !MentionsPullPolicy(WithoutPullPolicy(ls)[x])
    decreases |ls|
  {
    if ls != [] {
      var last := ls[|ls| - 1];
      var init := WithoutPullPolicy(ls[..|ls| - 1]);
      var tail := if MentionsPullPolicy(last) then [] else [last];
      var r := WithoutPullPolicy(ls);
      assert r == init + tail;
      WithoutPullPolicyDrops(ls[..|ls| - 1]);
      forall x | 0 <= x < |r| ensures !MentionsPullPolicy(r[x]) {
        if x < |init| {
          assert r[x] == init[x];
        } else {
          assert r[x] == tail[x - |init|] == last;
        }
      }
    }
  }

  /** The filter keeps a block that has no imagePullPolicy line as it is. */
  lemma {:induction false} WithoutPullPolicyKeeps(ls: seq<string>)
    requires forall x :: 0 <= x < |ls| ==> !MentionsPullPolicy(ls[x])
    ensures WithoutPullPolicy(ls) == ls
    decreases |ls|
  {
    if ls != [] {
      var init := ls[..|ls| - 1];
      assert forall x :: 0 <= x < |init| ==> init[x] == ls[x];
      WithoutPullPolicyKeeps(init);
      assert ls == init + [ls[|ls| - 1]];
    }
  }

  const ImageKey := KeyPrefix("image:")

  /** The text after the image pass: the first image: line, its block and one
      imagePullPolicy: line after it become the two templated lines. */
  function ImageSpec(text: string): string {
    if !Contains(text, ManagerMarker) then text
    else
      var lines := Lines(text);
      var first := FirstKeyLine(lines, 0, ImageKey);
      if first.None? then text
      else
        var i := first.value;
        if Contains(lines[i], ImageRepoPath) then text
        else
          var end := BlockEnd(lines, i, ImageBlock);
          Unlines(lines[..i] + ImageLines(LeadingWhitespace(lines[i]).0) + DropPullPolicy(lines[end..]))
  }

  lemma ImageLineIsKey(indent: string)
    requires AllBlank(indent)
    ensures MatchesKey(ImageKey, indent + ImageBody())
  {
    TrimSpaceOfIndented(indent, ImageBody());
    assert ImageBody()[..6] == "image:";
  }

  lemma ImageLineIsGuarded(indent: string)
    ensures Contains(indent + ImageBody(), ImageRepoPath)
  {
    var tail := " }}:{{ " + ImageTagPath + " }}\"";
    ContainsMiddle(indent + "image: \"{{ ", ImageRepoPath, tail);
    assert indent + ImageBody() == (indent + "image: \"{{ ") + ImageRepoPath + tail;
  }

  lemma ImageLinesNoNewline(indent: string)
    requires AllBlank(indent)
    ensures AllNoNewline(ImageLines(indent))
  {
    AllBlankNoNewline(indent);
    assert NoNewline(ImageRepoPath) && NoNewline(ImageTagPath) && NoNewline(ImagePullPolicyPath);
  }

  /** The image line is again the first image: key line and carries the
      marker the guard looks for; neither line has a newline. */
  lemma ImageLinesShape(indent: string)
    requires AllBlank(indent)
    ensures AllNoNewline(ImageLines(indent))
    ensures MatchesKey(ImageKey, ImageLines(indent)[0])
    ensures Contains(ImageLines(indent)[0], ImageRepoPath)
  {
    ImageLinesNoNewline(indent);
    ImageLineIsKey(indent);
    ImageLineIsGuarded(indent);
  }

  /** When the image pass rewrites, the output lines are the lines before the
      first image: line, the two templated lines, and the lines after the
      block less one leading imagePullPolicy: line: nothing of the block
      itself survives. */
  lemma ImageSplice(text: string, i: nat)
    requires Contains(text, ManagerMarker)
    requires FirstKeyLine(Lines(text), 0, ImageKey) == Some(i)
    requires !Contains(Lines(text)[i], ImageRepoPath)
    ensures Lines(ImageSpec(text)) ==
      Lines(text)[..i] + ImageLines(LeadingWhitespace(Lines(text)[i]).0)
        + DropPullPolicy(Lines(text)[BlockEnd(Lines(text), i, ImageBlock)..])
  {
    var lines := Lines(text);
    var end := BlockEnd(lines, i, ImageBlock);
    var w := LeadingWhitespace(lines[i]).0;
    assert ImageSpec(text) == Unlines(lines[..i] + ImageLines(w) + DropPullPolicy(lines[end..]));
    LinesHaveNoNewline(text);
    ImageLinesShape(w);
    var e := if DropPullPolicy(lines[end..]) == lines[end..] then end else end + 1;
    assert DropPullPolicy(lines[end..]) == lines[e..];
    SpliceLines(lines, i, ImageLines(w), e);
  }

  /** The image pass leaves text alone whose first image: line is templated. */
  lemma ImageGuardHolds(text: string, i: nat)
    requires FirstKeyLine(Lines(text), 0, ImageKey) == Some(i)
    requires Contains(Lines(text)[i], ImageRepoPath)
    ensures ImageSpec(text) == text
  {
  }

  /** Running the image pass twice is running it once. */
  lemma ImageIdempotent(text: string)
    ensures ImageSpec(ImageSpec(text)) == ImageSpec(text)
  {
    var out := ImageSpec(text);
    if out != text {
      var lines := Lines(text);
      var i := FirstKeyLine(lines, 0, ImageKey).value;
      ImageSplice(text, i);
      var w := LeadingWhitespace(lines[i]).0;
      var nl := Lines(out);
      ImageLinesShape(w);
      assert nl == lines[..i] + ImageLines(w) + DropPullPolicy(lines[BlockEnd(lines, i, ImageBlock)..]);
      assert nl[..i] == lines[..i] && nl[i] == ImageLines(w)[0];
      FirstKeyLineKept(lines, nl, i, ImageKey);
      ImageGuardHolds(out, i);
    }
  }
}
