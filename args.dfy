/** The rebuild of the manager container's args: list. The items of the first
    args: list are sorted into metrics, health-probe, certificate-path and
    other items, and the list is written again in a fixed order with the
    other items moved to values.yaml. */
module ControllerManagerArgs {
  import opened GoStrings

  const ArgsValuesPath := ".Values.controllerManager.args"

  /** The bucket an item falls in. */
  datatype ArgKind = MetricsBind | HealthProbe | CertPath | Other

  /** A flag an item is tested for, and the bucket it selects. */
  datatype FlagTest = FlagTest(flag: string, kind: ArgKind)

  /** The tests in the order the loop makes them; the first that holds wins. */
  const FlagTests := [
    FlagTest("--metrics-bind-address", MetricsBind),
    FlagTest("--health-probe-bind-address", HealthProbe),
    FlagTest("--webhook-cert-path", CertPath),
    FlagTest("--metrics-cert-path", CertPath)]

  function ClassifyBy(trimmed: string, tests: seq<FlagTest>): ArgKind
    decreases |tests|
  {
    if tests == [] then Other
    else if Contains(trimmed, tests[0].flag) then tests[0].kind
    else ClassifyBy(trimmed, tests[1..])
  }

  function Classify(trimmed: string): ArgKind {
    ClassifyBy(trimmed, FlagTests)
  }

  /** The table is the loop's chain of tests. */
  lemma ClassifyChain(trimmed: string)
    ensures Classify(trimmed) ==
      if Contains(trimmed, "--metrics-bind-address") then MetricsBind
      else if Contains(trimmed, "--health-probe-bind-address") then HealthProbe
      else if Contains(trimmed, "--webhook-cert-path") || Contains(trimmed, "--metrics-cert-path") then CertPath
      else Other
  {
    var t := FlagTests;
    assert t[1..][1..][1..][1..] == [];
  }

  /** The text before the first '-' of a line, when that '-' is not in
      column 0. */
  function DashPrefix(line: string): (r: Option<string>)
    ensures r.Some? ==> r.value != [] && |r.value| < |line|
  {
    var idx := IndexOfChar(line, '-');
    if idx > 0 then Some(line[..idx]) else None
  }

  /** The dash prefix is what comes before the first '-', which is not in
      column 0; there is none when the line starts with '-' or has none. */
  lemma DashPrefixSpec(line: string)
    ensures var r := DashPrefix(line);
      && (r.Some? ==> HasPrefix(line, r.value + "-") && forall k :: 0 <= k < |r.value| ==> r.value[k] != '-')
      && (r.None? ==> line == [] || line[0] == '-' || forall k :: 0 <= k < |line| ==> line[k] != '-')
  {
    IndexOfCharSpec(line, '-');
    var idx := IndexOfChar(line, '-');
    if idx > 0 {
      assert line[..idx + 1] == line[..idx] + "-";
    }
  }

  /** The variables of the loop over the item lines. */
  datatype ArgsScan = ArgsScan(
    itemIndent: string,
    metricsLine: string,
    metricsIndent: string,
    healthLine: string,
    preserved: seq<string>)

  function DefaultItemIndent(indent: string): string {
    indent + "  "
  }

  function InitialScan(indent: string): ArgsScan {
    ArgsScan(DefaultItemIndent(indent), "", "", "", [])
  }

  /** One iteration of the loop over the raw item lines: blank lines are
      skipped. */
  function ScanStep(indent: string, st: ArgsScan, raw: string): ArgsScan {
    var line := TrimRightChar(raw, '\r');
    if TrimSpace(line) == [] then st else Absorb(indent, st, line)
  }

  /** The loop body for a non-blank line: the item indentation moves while it
      is still the default, then the line goes to its bucket. */
  function Absorb(indent: string, st: ArgsScan, line: string): ArgsScan {
    var dash := DashPrefix(line);
    var itemIndent :=
      if st.itemIndent == DefaultItemIndent(indent) && dash.Some? then dash.value else st.itemIndent;
    match KindOf(line)
    case MetricsBind =>
      var metricsIndent := if dash.Some? then dash.value else st.metricsIndent;
      st.(itemIndent := itemIndent, metricsLine := line, metricsIndent := metricsIndent)
    case HealthProbe => st.(itemIndent := itemIndent, healthLine := line)
    case CertPath => st.(itemIndent := itemIndent, preserved := st.preserved + [line])
    case Other => st.(itemIndent := itemIndent)
  }

  /** The loop's variables after the given raw lines. */
  function ScanArgs(indent: string, lines: seq<string>): ArgsScan
    decreases |lines|
  {
    if lines == [] then InitialScan(indent)
    else ScanStep(indent, ScanArgs(indent, lines[..|lines| - 1]), lines[|lines| - 1])
  }

  // ---------------------------------------------------------------------
  // Reference definitions over the items the loop looks at

  /** The items: each raw line without its trailing carriage returns, blank
      lines left out, in order. */
  function Items(lines: seq<string>): seq<string>
    decreases |lines|
  {
    if lines == [] then [] else Items(lines[..|lines| - 1]) + ItemOf(lines[|lines| - 1])
  }

  /** The item one raw line contributes: none when it is blank. */
  function ItemOf(raw: string): seq<string> {
    var line := TrimRightChar(raw, '\r');
    if TrimSpace(line) == [] then [] else [line]
  }

  function KindOf(item: string): ArgKind {
    Classify(TrimSpace(item))
  }

  /** The items of one kind, in their original order. */
  function OfKind(items: seq<string>, k: ArgKind): (r: seq<string>)
    ensures |r| <= |items|
    decreases |items|
  {
    if items == [] then []
    else
      var x := items[|items| - 1];
      var before := OfKind(items[..|items| - 1], k);
      if KindOf(x) == k then before + [x] else before
  }

  /** The last item of one kind, or "" when there is none. */
  function LastOfKind(items: seq<string>, k: ArgKind): string {
    var f := OfKind(items, k);
    if f == [] then "" else f[|f| - 1]
  }

  /** The item indentation: the text before the dash of the first item that
      has one differing from the default two extra columns, else the
      default. */
  function FirstItemIndent(indent: string, items: seq<string>): string
    decreases |items|
  {
    if items == [] then DefaultItemIndent(indent)
    else
      var dash := DashPrefix(items[0]);
      if dash.Some? && dash.value != DefaultItemIndent(indent) then dash.value
      else FirstItemIndent(indent, items[1..])
  }

  /** The metrics indentation: the text before the dash of the last metrics
      item that has one, else "". */
  function LastDashPrefix(ms: seq<string>): string
    decreases |ms|
  {
    if ms == [] then ""
    else
      var dash := DashPrefix(ms[|ms| - 1]);
      if dash.Some? then dash.value else LastDashPrefix(ms[..|ms| - 1])
  }

  /** What the loop computes, stated over the items. */
  function ScanReference(indent: string, items: seq<string>): ArgsScan {
    ArgsScan(
      FirstItemIndent(indent, items),
      LastOfKind(items, MetricsBind),
      LastDashPrefix(OfKind(items, MetricsBind)),
      LastOfKind(items, HealthProbe),
      OfKind(items, CertPath))
  }

  // ---------------------------------------------------------------------
  // The rebuilt block

  /** The metrics item behind the metrics.enable guard, with the item that
      binds the metrics server to port 0 in the else branch. */
  function MetricsGuard(mi: string, metricsLine: string): seq<string> {
    [ mi + "{{- if .Values.metrics.enable }}",
      metricsLine,
      mi + "{{- else }}",
      mi + MetricsOffComment,
      mi + "- --metrics-bind-address=0",
      mi + "{{- end }}" ]
  }

  /** The comment above the item that turns the metrics server off. */
  const MetricsOffComment := "# Bind to :0 to disable the controller-runtime managed metrics server"

  /** The loop that renders the args kept in values.yaml. */
  function RangeLoop(itemIndent: string): seq<string> {
    [ itemIndent + "{{- range " + ArgsValuesPath + " }}",
      itemIndent + "- {{ . }}",
      itemIndent + "{{- end }}" ]
  }

  /** The lines the builder writes, in order. */
  function BlockLines(indent: string, st: ArgsScan): seq<string> {
    var mi := if st.metricsIndent == "" then st.itemIndent else st.metricsIndent;
    [indent + "args:"]
      + (if st.metricsLine != "" then MetricsGuard(mi, st.metricsLine) else [])
      + (if st.healthLine != "" then [st.healthLine] else [])
      + RangeLoop(st.itemIndent)
      + st.preserved
  }

  /** Each line followed by a newline, as the builder accumulates them. */
  function Written(lines: seq<string>): string
    decreases |lines|
  {
    if lines == [] then [] else Written(lines[..|lines| - 1]) + lines[|lines| - 1] + "\n"
  }

  /** The new args block: the written lines with the trailing newlines
      trimmed and one put back. */
  function RebuildArgsBlock(indent: string, itemsBlock: string): string {
    var st := ScanArgs(indent, Lines(itemsBlock));
    TrimRightChar(Written(BlockLines(indent, st)), '\n') + "\n"
  }

  /** The located args: list: the text before it, the indentation of the
      args: key, the item lines (each ending in a newline) and the text
      after it. */
  datatype ArgsMatch = ArgsMatch(prefix: string, indent: string, items: string, suffix: string) {
    function Matched(): string {
      indent + "args:\n" + items
    }
  }

  /** The text after the args pass, given where the args: list was found. */
  function ArgsSpec(text: string, found: Option<ArgsMatch>): string {
    if !Contains(text, "name: manager") then text
    else if found.None? then text
    else if Contains(found.value.Matched(), ArgsValuesPath) then text
    else found.value.prefix + RebuildArgsBlock(found.value.indent, found.value.items) + found.value.suffix
  }

  /** Cutting a text built from three pieces gives the pieces back, and
      the middle piece is fixed by the other two. */
  lemma ThreePieces(a: string, x: string, b: string, y: string)
    ensures var s := a + x + b;
      && s[..|a|] == a && s[|a|..|s| - |b|] == x && s[|s| - |b|..] == b
      && (a + y + b == s ==> y == x)
  {
    var s := a + x + b;
    if a + y + b == s {
      assert |y| == |x|;
      assert y == (a + y + b)[|a|..|a| + |y|];
    }
  }

  lemma ContainsInMiddle(a: string, x: string, b: string, sub: string)
    requires Contains(x, sub)
    ensures Contains(a + x + b, sub)
  {
    ContainsAppendRight(a, x, sub);
    ContainsAppendLeft(a + x, b, sub);
  }

  /** The pass's outcome on a text made of a prefix, a matched span and a
      suffix. */
  lemma ArgsSpliced(text: string, m: ArgsMatch)
    requires text == m.prefix + m.Matched() + m.suffix
    ensures ArgsSpec(text, Some(m)) == text <==>
      !Contains(text, "name: manager") || Contains(m.Matched(), ArgsValuesPath)
    ensures ArgsSpec(text, Some(m)) != text ==>
      ArgsSpec(text, Some(m)) == m.prefix + RebuildArgsBlock(m.indent, m.items) + m.suffix
  {
    var rebuilt := RebuildArgsBlock(m.indent, m.items);
    RebuildHasGuard(m.indent, m.items);
    ThreePieces(m.prefix, m.Matched(), m.suffix, rebuilt);
  }

  lemma ArgsGuardPresent(text: string, m: ArgsMatch)
    requires text == m.prefix + m.Matched() + m.suffix
    ensures Contains(text, "name: manager") ==> Contains(ArgsSpec(text, Some(m)), ArgsValuesPath)
  {
    var rebuilt := RebuildArgsBlock(m.indent, m.items);
    RebuildHasGuard(m.indent, m.items);
    if Contains(m.Matched(), ArgsValuesPath) {
      ContainsInMiddle(m.prefix, m.Matched(), m.suffix, ArgsValuesPath);
    } else {
      ContainsInMiddle(m.prefix, rebuilt, m.suffix, ArgsValuesPath);
    }
  }

  // ---------------------------------------------------------------------
  // The loop computes the reference definitions

  lemma OfKindSnoc(items: seq<string>, x: string, k: ArgKind)
    ensures OfKind(items + [x], k) == OfKind(items, k) + (if KindOf(x) == k then [x] else [])
  {
    assert (items + [x])[..|items|] == items;
  }

  lemma LastDashPrefixSnoc(ms: seq<string>, x: string)
    ensures LastDashPrefix(ms + [x]) == if DashPrefix(x).Some? then DashPrefix(x).value else LastDashPrefix(ms)
  {
    assert (ms + [x])[..|ms|] == ms;
  }

  /** The item indentation settles at the first item that moves it off the
      default; later items leave it alone. */
  lemma {:induction false} FirstItemIndentSnoc(indent: string, items: seq<string>, x: string)
    ensures FirstItemIndent(indent, items + [x]) ==
      if FirstItemIndent(indent, items) != DefaultItemIndent(indent) then FirstItemIndent(indent, items)
      else if DashPrefix(x).Some? then DashPrefix(x).value
      else DefaultItemIndent(indent)
    decreases |items|
  {
    if items == [] {
      assert [] + [x] == [x];
    } else {
      assert (items + [x])[1..] == items[1..] + [x];
      FirstItemIndentSnoc(indent, items[1..], x);
    }
  }

  /** The loop body field by field. */
  lemma AbsorbFields(indent: string, st: ArgsScan, line: string)
    ensures var r := Absorb(indent, st, line);
      var dash := DashPrefix(line);
      var k := KindOf(line);
      && r.itemIndent == (if st.itemIndent == DefaultItemIndent(indent) && dash.Some? then dash.value else st.itemIndent)
      && r.metricsLine == (if k == MetricsBind then line else st.metricsLine)
      && r.metricsIndent == (if k == MetricsBind && dash.Some? then dash.value else st.metricsIndent)
      && r.healthLine == (if k == HealthProbe then line else st.healthLine)
      && r.preserved == (if k == CertPath then st.preserved + [line] else st.preserved)
  {
    match KindOf(line)
    case MetricsBind =>
    case HealthProbe =>
    case CertPath =>
    case Other =>
  }

  lemma AbsorbItemIndent(indent: string, st: ArgsScan, items: seq<string>, line: string)
    requires st.itemIndent == FirstItemIndent(indent, items)
    ensures Absorb(indent, st, line).itemIndent == FirstItemIndent(indent, items + [line])
  {
    AbsorbFields(indent, st, line);
    FirstItemIndentSnoc(indent, items, line);
  }

  lemma AbsorbMetricsLine(indent: string, st: ArgsScan, items: seq<string>, line: string)
    requires st.metricsLine == LastOfKind(items, MetricsBind)
    ensures Absorb(indent, st, line).metricsLine == LastOfKind(items + [line], MetricsBind)
  {
    AbsorbFields(indent, st, line);
    var ms := OfKind(items, MetricsBind);
    OfKindSnoc(items, line, MetricsBind);
    if KindOf(line) == MetricsBind {
      assert OfKind(items + [line], MetricsBind) == ms + [line];
    } else {
      assert OfKind(items + [line], MetricsBind) == ms;
    }
  }

  lemma AbsorbMetricsIndent(indent: string, st: ArgsScan, items: seq<string>, line: string)
    requires st.metricsIndent == LastDashPrefix(OfKind(items, MetricsBind))
    ensures Absorb(indent, st, line).metricsIndent == LastDashPrefix(OfKind(items + [line], MetricsBind))
  {
    AbsorbFields(indent, st, line);
    var ms := OfKind(items, MetricsBind);
    OfKindSnoc(items, line, MetricsBind);
    LastDashPrefixSnoc(ms, line);
    if KindOf(line) == MetricsBind {
      assert OfKind(items + [line], MetricsBind) == ms + [line];
    } else {
      assert OfKind(items + [line], MetricsBind) == ms;
    }
  }

  lemma AbsorbHealthAndCerts(indent: string, st: ArgsScan, items: seq<string>, line: string)
    requires st.healthLine == LastOfKind(items, HealthProbe)
    requires st.preserved == OfKind(items, CertPath)
    ensures Absorb(indent, st, line).healthLine == LastOfKind(items + [line], HealthProbe)
    ensures Absorb(indent, st, line).preserved == OfKind(items + [line], CertPath)
  {
    AbsorbFields(indent, st, line);
    var hs := OfKind(items, HealthProbe);
    OfKindSnoc(items, line, HealthProbe);
    if KindOf(line) == HealthProbe {
      assert OfKind(items + [line], HealthProbe) == hs + [line];
    } else {
      assert OfKind(items + [line], HealthProbe) == hs;
    }
    OfKindSnoc(items, line, CertPath);
  }

  /** One non-blank line extends the reference definitions by that line. */
  lemma AbsorbReference(indent: string, items: seq<string>, line: string)
    ensures Absorb(indent, ScanReference(indent, items), line) == ScanReference(indent, items + [line])
  {
    var st := ScanReference(indent, items);
    AbsorbItemIndent(indent, st, items, line);
    AbsorbMetricsLine(indent, st, items, line);
    AbsorbMetricsIndent(indent, st, items, line);
    AbsorbHealthAndCerts(indent, st, items, line);
  }

  /** One iteration of the loop extends the reference definitions by the
      item of that line. */
  lemma StepReference(indent: string, items: seq<string>, raw: string)
    ensures ScanStep(indent, ScanReference(indent, items), raw) == ScanReference(indent, items + ItemOf(raw))
  {
    var line := TrimRightChar(raw, '\r');
    if TrimSpace(line) == [] {
      assert items + ItemOf(raw) == items;
    } else {
      assert items + ItemOf(raw) == items + [line];
      AbsorbReference(indent, items, line);
    }
  }

  /** The loop's variables after any lines are the reference definitions
      over the items of those lines: the item indentation is the first one
      off the default, the metrics and health lines are the last items of
      their kind, the metrics indentation comes from the last metrics item
      with one, and the preserved lines are the certificate-path items in
      order. */
  lemma {:induction false} ScanMatchesReference(indent: string, lines: seq<string>)
    ensures ScanArgs(indent, lines) == ScanReference(indent, Items(lines))
    decreases |lines|
  {
    if lines != [] {
      var init := lines[..|lines| - 1];
      ScanMatchesReference(indent, init);
      StepReference(indent, Items(init), lines[|lines| - 1]);
    }
  }

  /** What every item is: non-blank and, when the raw lines have no
      newline, without one. */
  predicate GoodItem(item: string) {
    TrimSpace(item) != [] && NoNewline(item)
  }

  lemma ItemOfShape(raw: string)
    requires NoNewline(raw)
    ensures forall j :: 0 <= j < |ItemOf(raw)| ==> GoodItem(ItemOf(raw)[j])
  {
    var line := TrimRightChar(raw, '\r');
    assert NoNewline(line) by {
      forall k | 0 <= k < |line| ensures line[k] != '\n' {
        assert line[k] == raw[k];
      }
    }
  }

  /** Every item is a non-blank piece of one raw line. */
  lemma {:induction false} ItemsShape(lines: seq<string>)
    requires AllNoNewline(lines)
    ensures forall j :: 0 <= j < |Items(lines)| ==> GoodItem(Items(lines)[j])
    decreases |lines|
  {
    if lines != [] {
      var init := lines[..|lines| - 1];
      assert AllNoNewline(init) by {
        forall j | 0 <= j < |init| ensures NoNewline(init[j]) {
          assert init[j] == lines[j];
        }
      }
      ItemsShape(init);
      var raw := lines[|lines| - 1];
      assert NoNewline(raw);
      ItemOfShape(raw);
      GoodConcat(Items(init), ItemOf(raw));
    }
  }

  lemma GoodConcat(a: seq<string>, b: seq<string>)
    requires forall j :: 0 <= j < |a| ==> GoodItem(a[j])
    requires forall j :: 0 <= j < |b| ==> GoodItem(b[j])
    ensures forall j :: 0 <= j < |a + b| ==> GoodItem((a + b)[j])
  {
    forall j | 0 <= j < |a + b| ensures GoodItem((a + b)[j]) {
      if j < |a| { assert (a + b)[j] == a[j]; } else { assert (a + b)[j] == b[j - |a|]; }
    }
  }

  lemma OfKindIsSubset(items: seq<string>, k: ArgKind, j: nat)
    requires j < |OfKind(items, k)|
    ensures OfKind(items, k)[j] in items
    decreases |items|
  {
    var init := items[..|items| - 1];
    if j < |OfKind(init, k)| {
      OfKindIsSubset(init, k, j);
    }
  }

  /** Every item OfKind keeps is of the kind asked for. */
  lemma {:induction false} OfKindHasKind(items: seq<string>, k: ArgKind, j: nat)
    requires j < |OfKind(items, k)|
    ensures KindOf(OfKind(items, k)[j]) == k
    decreases |items|
  {
    var init := items[..|items| - 1];
    var before := OfKind(init, k);
    if j < |before| {
      OfKindHasKind(init, k, j);
      assert OfKind(items, k)[j] == before[j];
    }
  }


  /** The last item of a kind is "" exactly when there is no item of that
      kind, as items are never blank. */
  lemma LastOfKindPresence(items: seq<string>, k: ArgKind)
    requires forall j :: 0 <= j < |items| ==> GoodItem(items[j])
    ensures LastOfKind(items, k) != "" <==> OfKind(items, k) != []
  {
    var f := OfKind(items, k);
    if f != [] {
      OfKindIsSubset(items, k, |f| - 1);
      EmptyTrimSpace();
    }
  }

  /** The metrics guard is written exactly when there is a metrics item, and
      the health line exactly when there is a health-probe item. */
  lemma ArgsPresence(indent: string, itemsBlock: string)
    ensures ScanArgs(indent, Lines(itemsBlock)).metricsLine != ""
      <==> OfKind(Items(Lines(itemsBlock)), MetricsBind) != []
    ensures ScanArgs(indent, Lines(itemsBlock)).healthLine != ""
      <==> OfKind(Items(Lines(itemsBlock)), HealthProbe) != []
  {
    var lines := Lines(itemsBlock);
    ScanMatchesReference(indent, lines);
    LinesHaveNoNewline(itemsBlock);
    ItemsShape(lines);
    LastOfKindPresence(Items(lines), MetricsBind);
    LastOfKindPresence(Items(lines), HealthProbe);
  }

  lemma EmptyTrimSpace()
    ensures TrimSpace([]) == []
  {
  }

  // ---------------------------------------------------------------------
  // The rebuilt block's text

  /** What the builder accumulates is the lines joined by newlines, with a
      newline after the last one. */
  lemma {:induction false} WrittenIsUnlines(ls: seq<string>)
    ensures Written(ls) == Unlines(ls + [""])
    decreases |ls|
  {
    if ls == [] {
      assert [] + [""] == [""];
    } else {
      var init := ls[..|ls| - 1];
      var last := ls[|ls| - 1];
      WrittenIsUnlines(init);
      assert ls == init + [last];
      assert ls + [""] == (init + [last]) + [""];
      JoinSnoc(init + [last], "", "\n");
      if init == [] {
        assert init + [last] == [last];
      } else {
        JoinSnoc(init, last, "\n");
        JoinSnoc(init, "", "\n");
      }
    }
  }

  /** A text is in what the builder accumulates when it is in one line. */
  lemma {:induction false} WrittenContains(ls: seq<string>, j: nat, sub: string)
    requires j < |ls| && Contains(ls[j], sub)
    ensures Contains(Written(ls), sub)
    decreases |ls|
  {
    var init := ls[..|ls| - 1];
    if j == |ls| - 1 {
      ContainsAppendRight(Written(init), ls[j], sub);
      ContainsAppendLeft(Written(init) + ls[j], "\n", sub);
    } else {
      WrittenContains(init, j, sub);
      ContainsAppendLeft(Written(init), ls[|ls| - 1] + "\n", sub);
      assert Written(init) + ls[|ls| - 1] + "\n" == Written(init) + (ls[|ls| - 1] + "\n");
    }
  }

  /** The last line written is never empty and never ends in a newline. */
  lemma BlockLinesLast(indent: string, st: ArgsScan)
    requires forall j :: 0 <= j < |st.preserved| ==> GoodItem(st.preserved[j])
    ensures var ls := BlockLines(indent, st);
      ls[|ls| - 1] != [] && ls[|ls| - 1][|ls[|ls| - 1]| - 1] != '\n'
  {
    var ls := BlockLines(indent, st);
    if st.preserved == [] {
      var e := st.itemIndent + "{{- end }}";
      assert ls[|ls| - 1] == e;
      assert e[|e| - 1] == '}';
    } else {
      var p := st.preserved[|st.preserved| - 1];
      assert ls[|ls| - 1] == p;
      assert GoodItem(p);
      EmptyTrimSpace();
      assert p != [];
      assert p[|p| - 1] in p;
    }
  }

  /** The trim at the end of the builder changes nothing: the new block is
      exactly the written lines, with the scan's variables given by the
      reference definitions. */
  lemma RebuildIsWritten(indent: string, itemsBlock: string)
    ensures RebuildArgsBlock(indent, itemsBlock) ==
      Written(BlockLines(indent, ScanReference(indent, Items(Lines(itemsBlock)))))
  {
    var lines := Lines(itemsBlock);
    ScanMatchesReference(indent, lines);
    LinesHaveNoNewline(itemsBlock);
    ItemsShape(lines);
    var st := ScanReference(indent, Items(lines));
    OfKindGood(Items(lines), CertPath);
    BlockLinesLast(indent, st);
    TrimWritten(BlockLines(indent, st));
  }

  /** Trimming the newlines off the written lines and putting one back gives
      the written lines again, when the last line is not empty and does not
      end in a newline. */
  lemma TrimWritten(ls: seq<string>)
    requires ls != [] && ls[|ls| - 1] != [] && ls[|ls| - 1][|ls[|ls| - 1]| - 1] != '\n'
    ensures TrimRightChar(Written(ls), '\n') + "\n" == Written(ls)
  {
    var x := Written(ls[..|ls| - 1]) + ls[|ls| - 1];
    assert Written(ls) == x + "\n";
    TrimRightCharOne(x, '\n');
  }

  /** The range line carries the values entry of the args. */
  lemma BlockLinesHaveGuard(indent: string, st: ArgsScan)
    ensures Contains(Written(BlockLines(indent, st)), ArgsValuesPath)
  {
    var ls := BlockLines(indent, st);
    var mi := if st.metricsIndent == "" then st.itemIndent else st.metricsIndent;
    var head := [indent + "args:"]
      + (if st.metricsLine != "" then MetricsGuard(mi, st.metricsLine) else [])
      + (if st.healthLine != "" then [st.healthLine] else []);
    assert ls == head + RangeLoop(st.itemIndent) + st.preserved;
    assert ls[|head|] == st.itemIndent + "{{- range " + ArgsValuesPath + " }}";
    ContainsMiddle(st.itemIndent + "{{- range ", ArgsValuesPath, " }}");
    WrittenContains(ls, |head|, ArgsValuesPath);
  }

  /** The new block carries the values entry the re-entry guard looks for. */
  lemma RebuildHasGuard(indent: string, itemsBlock: string)
    ensures Contains(RebuildArgsBlock(indent, itemsBlock), ArgsValuesPath)
  {
    RebuildIsWritten(indent, itemsBlock);
    BlockLinesHaveGuard(indent, ScanReference(indent, Items(Lines(itemsBlock))));
  }

  /** A dash prefix is the start of its line, so it has no newline when the
      line has none. */
  lemma DashPrefixNoNewline(line: string)
    requires NoNewline(line) && DashPrefix(line).Some?
    ensures NoNewline(DashPrefix(line).value)
  {
    var d := DashPrefix(line).value;
    assert d == line[..|d|];
    forall k | 0 <= k < |d| ensures d[k] != '\n' {
      assert d[k] == line[k];
    }
  }

  lemma {:induction false} FirstItemIndentNoNewline(indent: string, items: seq<string>)
    requires NoNewline(indent)
    requires forall j :: 0 <= j < |items| ==> GoodItem(items[j])
    ensures NoNewline(FirstItemIndent(indent, items))
    decreases |items|
  {
    if items != [] {
      assert GoodItem(items[0]);
      if DashPrefix(items[0]).Some? {
        DashPrefixNoNewline(items[0]);
      }
      FirstItemIndentNoNewline(indent, items[1..]);
    }
  }

  lemma {:induction false} LastDashPrefixNoNewline(ms: seq<string>)
    requires forall j :: 0 <= j < |ms| ==> GoodItem(ms[j])
    ensures NoNewline(LastDashPrefix(ms))
    decreases |ms|
  {
    if ms != [] {
      assert GoodItem(ms[|ms| - 1]);
      if DashPrefix(ms[|ms| - 1]).Some? {
        DashPrefixNoNewline(ms[|ms| - 1]);
      }
      LastDashPrefixNoNewline(ms[..|ms| - 1]);
    }
  }

  lemma AllNoNewlineConcat(a: seq<string>, b: seq<string>)
    requires AllNoNewline(a) && AllNoNewline(b)
    ensures AllNoNewline(a + b)
  {
    forall j | 0 <= j < |a + b| ensures NoNewline((a + b)[j]) {
      if j < |a| { assert (a + b)[j] == a[j]; } else { assert (a + b)[j] == b[j - |a|]; }
    }
  }

  lemma MetricsGuardNoNewline(mi: string, metricsLine: string)
    requires NoNewline(mi) && NoNewline(metricsLine)
    ensures AllNoNewline(MetricsGuard(mi, metricsLine))
  {
    MetricsOffCommentNoNewline();
    assert NoNewline("{{- if .Values.metrics.enable }}");
    assert NoNewline("- --metrics-bind-address=0");
  }

  lemma MetricsOffCommentNoNewline()
    ensures NoNewline(MetricsOffComment)
  {
    assert NoNewline("# Bind to :0 to disable ") && NoNewline("the controller-runtime managed ");
    assert NoNewline("metrics server");
  }


  lemma RangeLoopNoNewline(itemIndent: string)
    requires NoNewline(itemIndent)
    ensures AllNoNewline(RangeLoop(itemIndent))
  {
    assert NoNewline(ArgsValuesPath);
  }

  /** No line the builder writes has a newline of its own. */
  lemma BlockLinesNoNewline(indent: string, st: ArgsScan)
    requires NoNewline(indent) && NoNewline(st.itemIndent) && NoNewline(st.metricsIndent)
    requires NoNewline(st.metricsLine) && NoNewline(st.healthLine)
    requires forall j :: 0 <= j < |st.preserved| ==> GoodItem(st.preserved[j])
    ensures AllNoNewline(BlockLines(indent, st))
  {
    var mi := if st.metricsIndent == "" then st.itemIndent else st.metricsIndent;
    var guard := if st.metricsLine != "" then MetricsGuard(mi, st.metricsLine) else [];
    var health := if st.healthLine != "" then [st.healthLine] else [];
    MetricsGuardNoNewline(mi, st.metricsLine);
    RangeLoopNoNewline(st.itemIndent);
    assert AllNoNewline(st.preserved) by {
      forall j | 0 <= j < |st.preserved| ensures NoNewline(st.preserved[j]) {
        assert GoodItem(st.preserved[j]);
      }
    }
    AllNoNewlineConcat([indent + "args:"], guard);
    AllNoNewlineConcat([indent + "args:"] + guard, health);
    AllNoNewlineConcat([indent + "args:"] + guard + health, RangeLoop(st.itemIndent));
    AllNoNewlineConcat([indent + "args:"] + guard + health + RangeLoop(st.itemIndent), st.preserved);
  }

  lemma OfKindGood(items: seq<string>, k: ArgKind)
    requires forall j :: 0 <= j < |items| ==> GoodItem(items[j])
    ensures forall j :: 0 <= j < |OfKind(items, k)| ==> GoodItem(OfKind(items, k)[j])
  {
    forall j | 0 <= j < |OfKind(items, k)| ensures GoodItem(OfKind(items, k)[j]) {
      OfKindIsSubset(items, k, j);
    }
  }

  lemma LastOfKindNoNewline(items: seq<string>, k: ArgKind)
    requires forall j :: 0 <= j < |items| ==> GoodItem(items[j])
    ensures NoNewline(LastOfKind(items, k))
  {
    var f := OfKind(items, k);
    if f != [] {
      OfKindIsSubset(items, k, |f| - 1);
    }
  }

  /** The loop's variables after non-blank, newline-free items hold no
      newline either. */
  lemma ScanReferenceNoNewline(indent: string, items: seq<string>)
    requires NoNewline(indent)
    requires forall j :: 0 <= j < |items| ==> GoodItem(items[j])
    ensures NoNewline(ScanReference(indent, items).itemIndent)
    ensures NoNewline(ScanReference(indent, items).metricsIndent)
    ensures NoNewline(ScanReference(indent, items).metricsLine)
    ensures NoNewline(ScanReference(indent, items).healthLine)
    ensures forall j :: 0 <= j < |ScanReference(indent, items).preserved| ==>
      GoodItem(ScanReference(indent, items).preserved[j])
  {
    FirstItemIndentNoNewline(indent, items);
    OfKindGood(items, MetricsBind);
    LastDashPrefixNoNewline(OfKind(items, MetricsBind));
    LastOfKindNoNewline(items, MetricsBind);
    LastOfKindNoNewline(items, HealthProbe);
    OfKindGood(items, CertPath);
  }

  /** The lines of the new block are, in order: the args: key at the list's
      indentation; when there is a metrics-bind-address item, the last one
      inside the metrics.enable guard; the last health-probe item, if any;
      the three lines of the range over the values entry; and the
      certificate-path items in their original order. Every other item is
      left out. */
  lemma ArgsBlockLines(indent: string, itemsBlock: string)
    requires NoNewline(indent)
    ensures Lines(RebuildArgsBlock(indent, itemsBlock)) ==
      BlockLines(indent, ScanReference(indent, Items(Lines(itemsBlock)))) + [""]
  {
    var lines := Lines(itemsBlock);
    var items := Items(lines);
    var st := ScanReference(indent, items);
    RebuildIsWritten(indent, itemsBlock);
    LinesHaveNoNewline(itemsBlock);
    ItemsShape(lines);
    ScanReferenceNoNewline(indent, items);
    var ls := BlockLines(indent, st);
    BlockLinesNoNewline(indent, st);
    WrittenIsUnlines(ls);
    assert AllNoNewline([""]);
    AllNoNewlineConcat(ls, [""]);
    SplitJoinLines(ls + [""]);
  }
}
