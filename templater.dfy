/** The templater object: the passes that walk the manifest line by line,
    each proved to compute its specification, and the pipeline that runs all
    passes in order. */
module Templater {
  import opened GoStrings
  import opened Blocks
  import opened BlockPasses
  import opened ControllerManagerArgs
  import opened ArgsSearch
  import opened BlankLines
  import opened ConditionalWrappers
  import opened Substitutions

  /** The rewrites done with regular expressions, and the regular-expression
      search for the args: list, which the model takes as given. */
  datatype RegexPasses = RegexPasses(
    annotateWebhooks: string -> string,               // makeWebhookAnnotationsConditional
    renameLine: (string, string, string) -> string,   // the name: line rewrite of templateServiceMonitorNames
    managedBy: string -> string,                      // addHelmLabelsAndAnnotations
    findArgs: string -> Option<ArgsMatch>,            // the args: list search of templateControllerManagerArgs
    containerArgs: string -> string,                  // makeContainerArgsConditional
    webhookVolumeMounts: string -> string,            // makeWebhookVolumeMountsConditional
    webhookVolumes: string -> string,                 // makeWebhookVolumesConditional
    metricsVolumeMounts: string -> string,            // makeMetricsVolumeMountsConditional
    metricsVolumes: string -> string)                 // makeMetricsVolumesConditional

  /** templateDeploymentFields: image, env, pod and container security
      contexts, resources, then args (the three passes that keep their input
      as it is are left out of the chain). */
  function DeploymentFieldsSpec(text: string, findArgs: string -> Option<ArgsMatch>): string {
    var t1 := ImageSpec(text);
    var t2 := KeyBlockSpec(t1, EnvPass);
    var t3 := SecurityContextSpec(t2, true);
    var t4 := SecurityContextSpec(t3, false);
    var t5 := KeyBlockSpec(t4, ResourcesPass);
    ArgsSpec(t5, findArgs(t5))
  }

  /** The conditional rewrites applied to a Deployment after its fields are
      templated. */
  function DeploymentConditionals(text: string, rx: RegexPasses): string {
    rx.metricsVolumes(rx.metricsVolumeMounts(rx.webhookVolumes(rx.webhookVolumeMounts(rx.containerArgs(text)))))
  }

  /** ApplyHelmSubstitutions: the passes in the order the templater runs
      them (the project-name, cert-manager and RBAC passes keep their input
      as it is and are left out of the chain). */
  function HelmSubstitutionsSpec(projectName: string, text: string, r: Resource, rx: RegexPasses): string {
    var t1 := AddConditionalWrappers(text, r, rx.annotateWebhooks);
    var t2 := SubstituteNamespace(t1, projectName, r);
    var t3 := TemplateServiceMonitorNames(t2, projectName, r, rx.renameLine);
    var t4 := rx.managedBy(t3);
    var t5 := if r.kind == KindDeployment then DeploymentConditionals(DeploymentFieldsSpec(t4, rx.findArgs), rx) else t4;
    CollapseSpec(t5)
  }

  /** The Namespace manifest is dropped by the wrappers and nothing later
      brings text back (given that the managed-by rewrite, a regular
      expression replacement, leaves the empty text empty). */
  lemma NamespaceRendersNothing(projectName: string, text: string, r: Resource, rx: RegexPasses)
    requires r.kind == KindNamespace
    requires rx.managedBy("") == ""
    ensures HelmSubstitutionsSpec(projectName, text, r, rx) == ""
  {
    assert Decide(r) == Dropped;
    assert SubstituteNamespace("", projectName, r) == "";
    assert Collapse(Lines("")) == [""];
  }

  /** A manifest without the manager container and without any
      securityContext: key keeps its text through the deployment passes. */
  lemma DeploymentFieldsWithoutManager(text: string, findArgs: string -> Option<ArgsMatch>)
    requires !Contains(text, ManagerMarker)
    requires !Contains(text, "securityContext:")
    ensures DeploymentFieldsSpec(text, findArgs) == text
  {
  }

  /** One line and a newline appended to what a strings.Builder holds. */
  method AppendLine(builder: string, ghost written: seq<string>, line: string) returns (b: string)
    requires builder == Written(written)
    ensures b == Written(written + [line])
  {
    b := builder + line + "\n";
    assert (written + [line])[..|written|] == written;
  }

  /** The security context specification once the scan has found its
      block. */
  lemma SecurityContextAtFound(text: string, pod: bool, i: nat, end: nat)
    requires SecurityContextApplies(text, pod)
    requires SecurityContextFind(Lines(text), 0, pod) == Some((i, end))
    ensures SecurityContextSpec(text, pod) ==
      if SecurityContextGuarded(Lines(text), i, end, pod) then text
      else Unlines(Lines(text)[..i] + SecurityContextReplacement(Lines(text)[i], pod) + Lines(text)[end..])
  {
  }

  /** ... and once it has found none. */
  lemma SecurityContextNotFound(text: string, pod: bool)
    requires SecurityContextFind(Lines(text), 0, pod).None?
    ensures SecurityContextSpec(text, pod) == text
  {
  }

  /** The container pass's guard looks at the key line through five lines
      past the block's end, or to the last line. */
  lemma ContainerGuard(lines: seq<string>, i: nat, end: nat, lookAheadEnd: nat)
    requires i < end < |lines|
    requires lookAheadEnd == if end + 5 > |lines| then |lines| else end + 5
    ensures SecurityContextGuarded(lines, i, end, false) == Contains(Unlines(lines[i..lookAheadEnd]), ContainerSecurityPath)
  {
    assert lookAheadEnd == Min(end + 5, |lines|);
  }

  /** One step of the scan at a securityContext: line. */
  lemma SecurityContextFindAt(lines: seq<string>, i: nat, pod: bool)
    requires i < |lines| && IsSecurityContextLine(lines[i])
    ensures var end := BlockEnd(lines, i, NestedBlock);
      SecurityContextFind(lines, i, pod) ==
        if end >= |lines| then None
        else if EndsAtServiceAccount(lines, end) != pod then SecurityContextFind(lines, i + 1, pod)
        else Some((i, end))
  {
  }

  /** The image specification once the scan has found the first image:
      line. */
  lemma ImageAtFound(text: string, i: nat)
    requires Contains(text, ManagerMarker)
    requires FirstKeyLine(Lines(text), 0, ImageKey) == Some(i)
    ensures ImageSpec(text) ==
      if Contains(Lines(text)[i], ImageRepoPath) then text
      else Unlines(Lines(text)[..i] + ImageLines(LeadingWhitespace(Lines(text)[i]).0)
                   + DropPullPolicy(Lines(text)[BlockEnd(Lines(text), i, ImageBlock)..]))
  {
  }

  /** ... and once it has found none. */
  lemma ImageNotFound(text: string)
    requires FirstKeyLine(Lines(text), 0, ImageKey).None?
    ensures ImageSpec(text) == text
  {
  }

  /** Rewriting the block's lines in place leaves the lines before the image
      line and the lines after the block where they were. */
  lemma InPlaceRewrite(before: seq<string>, i: nat, filtered: seq<string>, blockEnd: nat, after: seq<string>)
    requires i < blockEnd <= |before|
    requires after == before[..i + 1] + (filtered + before[blockEnd..])
    ensures after[..i] == before[..i]
    ensures after[i + 1 + |filtered|..] == before[blockEnd..]
  {
    assert after[..i] == before[..i + 1][..i];
  }

  /** The scan's variables after one more raw line. */
  lemma ScanArgsSnoc(indent: string, lines: seq<string>, j: nat)
    requires j < |lines|
    ensures ScanArgs(indent, lines[..j + 1]) == ScanStep(indent, ScanArgs(indent, lines[..j]), lines[j])
  {
    assert lines[..j + 1][..j] == lines[..j];
  }

  /** The builder's lines, accumulated piece by piece, are the block's
      lines. */
  lemma BlockLinesParts(indent: string, st: ArgsScan, written: seq<string>,
                        afterArgs: seq<string>, afterMetrics: seq<string>, afterHealth: seq<string>)
    requires afterArgs == [indent + "args:"]
    requires var mi := if st.metricsIndent == "" then st.itemIndent else st.metricsIndent;
      afterMetrics == afterArgs + (if st.metricsLine != "" then MetricsGuard(mi, st.metricsLine) else [])
    requires afterHealth == afterMetrics + (if st.healthLine != "" then [st.healthLine] else [])
    requires written == afterHealth + RangeLoop(st.itemIndent) + st.preserved
    ensures written == BlockLines(indent, st)
  {
  }

  lemma KeptStep(whole: seq<string>, kept: seq<string>, line: string, rest: seq<string>)
    requires whole == kept + ([line] + rest)
    ensures whole == (kept + [line]) + rest
  {
  }



  class HelmTemplater {
    const projectName: string

    constructor(projectName: string)
      ensures this.projectName == projectName
    {
      this.projectName := projectName;
    }

    /** templateEnvironmentVariables (p = EnvPass) and templateResources
        (p = ResourcesPass). */
    method TemplateKeyBlock(text: string, p: KeyBlockPass) returns (out: string)
      ensures out == KeyBlockSpec(text, p)
    {
      if !p.Applies(text) {
        return text;
      }
      var lines := Lines(text);
      ghost var m := ExactKey(p.Key());
      var i := 0;
      while i < |lines|
        invariant 0 <= i <= |lines|
        invariant FirstKeyLine(lines, i, m) == FirstKeyLine(lines, 0, m)
      {
        if TrimSpace(lines[i]) != p.Key() {
          i := i + 1;
          continue;
        }
        var (indentStr, _) := LeadingWhitespace(lines[i]);
        var end := LocateBlockEnd(lines, i, p.Rule());
        if i + 1 < |lines| && Contains(lines[i + 1], p.ValuesPath()) {
          return text;
        }
        var block := GuardedBlock(indentStr, p.Key(), p.ValuesPath(), p.Fallback());
        return Unlines(lines[..i] + block + lines[end..]);
      }
      return text;
    }

    /** templatePodSecurityContext (pod = true) and
        templateContainerSecurityContext (pod = false). */
    method TemplateSecurityContext(text: string, pod: bool) returns (out: string)
      ensures out == SecurityContextSpec(text, pod)
    {
      if !SecurityContextApplies(text, pod) {
        return text;
      }
      var lines := Lines(text);
      var i := 0;
      while i < |lines|
        invariant 0 <= i <= |lines|
        invariant SecurityContextFind(lines, i, pod) == SecurityContextFind(lines, 0, pod)
      {
        if TrimSpace(lines[i]) != "securityContext:" {
          i := i + 1;
          continue;
        }
        SecurityContextFindAt(lines, i, pod);
        var (indentStr, _) := LeadingWhitespace(lines[i]);
        var end := LocateBlockEnd(lines, i, NestedBlock);
        if end >= |lines| {
          break;
        }
        if HasPrefix(TrimSpace(lines[end]), "serviceAccountName:") != pod {
          i := i + 1;
          continue;
        }
        assert SecurityContextFind(lines, 0, pod) == Some((i, end));
        SecurityContextAtFound(text, pod, i, end);
        var guarded: bool;
        if pod {
          guarded := i + 1 < |lines| && Contains(lines[i + 1], PodSecurityPath);
          assert guarded == SecurityContextGuarded(lines, i, end, pod);
        } else {
          var lookAheadEnd := end + 5;
          if lookAheadEnd > |lines| {
            lookAheadEnd := |lines|;
          }
          var joined := Unlines(lines[i..lookAheadEnd]);
          guarded := Contains(joined, ContainerSecurityPath);
          ContainerGuard(lines, i, end, lookAheadEnd);
        }
        if guarded {
          return text;
        }
        var block := GuardedBlock(indentStr, "securityContext:", SecurityPath(pod), "{}");
        return Unlines(lines[..i] + block + lines[end..]);
      }
      SecurityContextNotFound(text, pod);
      return text;
    }

    /** templateImageReference. */
    method TemplateImageReference(text: string) returns (out: string)
      ensures out == ImageSpec(text)
    {
      if !Contains(text, ManagerMarker) {
        return text;
      }
      var lines := Lines(text);
      var i := 0;
      while i < |lines|
        invariant 0 <= i <= |lines|
        invariant lines == Lines(text)
        invariant FirstKeyLine(lines, i, ImageKey) == FirstKeyLine(lines, 0, ImageKey)
      {
        var trimmed := TrimSpace(lines[i]);
        if !HasPrefix(trimmed, "image:") {
          i := i + 1;
          continue;
        }
        ImageAtFound(text, i);
        if Contains(lines[i], ImageRepoPath) {
          return text;
        }
        var (indentStr, _) := LeadingWhitespace(lines[i]);
        // the block ends at a blank line, a line indented no deeper than the
        // image line, or a sibling key other than imagePullPolicy
        var end := LocateBlockEnd(lines, i, ImageBlock);
        // the block's own imagePullPolicy lines are filtered out, and the
        // block is rewritten in place
        var filtered := FilterPullPolicy(lines[i + 1..end]);
        ghost var before := lines;
        ghost var blockEnd := end;
        lines := lines[..i + 1] + (filtered + lines[end..]);
        end := i + 1 + |filtered|;
        InPlaceRewrite(before, i, filtered, blockEnd, lines);

        var imageLine := indentStr + ImageBody();
        var pullPolicyLine := indentStr + "imagePullPolicy: {{ " + ImagePullPolicyPath + " }}";
        var remainder := lines[end..];
        if |remainder| > 0 && HasPrefix(TrimSpace(remainder[0]), "imagePullPolicy:") {
          remainder := remainder[1..];
        }
        return Unlines(lines[..i] + [imageLine, pullPolicyLine] + remainder);
      }
      ImageNotFound(text);
      return text;
    }

    /** The loop of templateImageReference that drops the block's
        imagePullPolicy lines. */
    method FilterPullPolicy(blockLines: seq<string>) returns (filtered: seq<string>)
      ensures filtered == WithoutPullPolicy(blockLines)
    {
      filtered := [];
      for j := 0 to |blockLines|
        invariant filtered == WithoutPullPolicy(blockLines[..j])
      {
        assert blockLines[..j + 1][..j] == blockLines[..j];
        if !MentionsPullPolicy(blockLines[j]) {
          filtered := filtered + [blockLines[j]];
        }
      }
      assert blockLines[..|blockLines|] == blockLines;
    }

    /** templateDeploymentFields. templateSecurityContexts,
        templateVolumeMounts and templateVolumes return their input and are
        not called. */
    method TemplateDeploymentFields(text: string, findArgs: string -> Option<ArgsMatch>) returns (out: string)
      ensures out == DeploymentFieldsSpec(text, findArgs)
    {
      out := TemplateImageReference(text);
      out := TemplateKeyBlock(out, EnvPass);
      out := TemplateSecurityContext(out, true);
      out := TemplateSecurityContext(out, false);
      out := TemplateKeyBlock(out, ResourcesPass);
      out := TemplateControllerManagerArgs(out, findArgs(out));
    }

    /** ApplyHelmSubstitutions for a manifest of the given resource. */
    method ApplyHelmSubstitutions(text: string, r: Resource, rx: RegexPasses) returns (out: string)
      ensures out == HelmSubstitutionsSpec(projectName, text, r, rx)
    {
      out := AddConditionalWrappers(text, r, rx.annotateWebhooks);
      out := SubstituteNamespace(out, projectName, r);
      out := TemplateServiceMonitorNames(out, projectName, r, rx.renameLine);
      out := rx.managedBy(out);
      if r.kind == KindDeployment {
        out := TemplateDeploymentFields(out, rx.findArgs);
        out := rx.containerArgs(out);
        out := rx.webhookVolumeMounts(out);
        out := rx.webhookVolumes(out);
        out := rx.metricsVolumeMounts(out);
        out := rx.metricsVolumes(out);
      }
      out := CollapseBlankLineAfterIf(out);
    }

    /** templateControllerManagerArgs, given what the search for the args:
        list found in the text. On a genuine match the text is left alone
        exactly when there is no manager or the match already mentions the
        args values; otherwise only the matched span is replaced. */
    method TemplateControllerManagerArgs(text: string, found: Option<ArgsMatch>) returns (out: string)
      ensures out == ArgsSpec(text, found)
      ensures found.Some? && ArgsFound(text, found.value) ==>
        && (out == text <==> !Contains(text, "name: manager") || Contains(found.value.Matched(), ArgsValuesPath))
        && (out != text ==> out == found.value.prefix + RebuildArgsBlock(found.value.indent, found.value.items) + found.value.suffix)
    {
      if found.Some? && ArgsFound(text, found.value) {
        ArgsRewriteSpan(text, found.value);
      }
      if !Contains(text, "name: manager") {
        return text;
      }
      if found.None? {
        return text;
      }
      var m := found.value;
      if Contains(m.Matched(), ArgsValuesPath) {
        return text;
      }
      var indent := m.indent;
      var itemIndent, metricsLine, metricsIndent, healthLine, preserved := ScanItemLines(indent, Lines(m.items));
      var builder := BuildArgsBlock(indent, itemIndent, metricsLine, metricsIndent, healthLine, preserved);
      var newBlock := TrimRightChar(builder, '\n') + "\n";
      return m.prefix + newBlock + m.suffix;
    }

    /** The loop of templateControllerManagerArgs over the item lines. */
    method ScanItemLines(indent: string, lines: seq<string>)
      returns (itemIndent: string, metricsLine: string, metricsIndent: string,
               healthLine: string, preserved: seq<string>)
      ensures ArgsScan(itemIndent, metricsLine, metricsIndent, healthLine, preserved) == ScanArgs(indent, lines)
    {
      itemIndent := indent + "  ";
      metricsLine := "";
      metricsIndent := "";
      healthLine := "";
      preserved := [];
      for j := 0 to |lines|
        invariant ArgsScan(itemIndent, metricsLine, metricsIndent, healthLine, preserved) == ScanArgs(indent, lines[..j])
      {
        ScanArgsSnoc(indent, lines, j);
        var line := TrimRightChar(lines[j], '\r');
        if TrimSpace(line) == [] {
          continue;
        }
        itemIndent, metricsLine, metricsIndent, healthLine, preserved :=
          AbsorbLine(indent, itemIndent, metricsLine, metricsIndent, healthLine, preserved, line);
      }
      assert lines[..|lines|] == lines;
    }

    /** The body of the loop over the item lines, for a line that is not
        blank. */
    method AbsorbLine(indent: string, itemIndent: string, metricsLine: string, metricsIndent: string,
                      healthLine: string, preserved: seq<string>, line: string)
      returns (itemIndent': string, metricsLine': string, metricsIndent': string,
               healthLine': string, preserved': seq<string>)
      ensures ArgsScan(itemIndent', metricsLine', metricsIndent', healthLine', preserved')
           == Absorb(indent, ArgsScan(itemIndent, metricsLine, metricsIndent, healthLine, preserved), line)
    {
      AbsorbFields(indent, ArgsScan(itemIndent, metricsLine, metricsIndent, healthLine, preserved), line);
      var trimmed := TrimSpace(line);
      itemIndent', metricsLine', metricsIndent', healthLine', preserved' :=
        itemIndent, metricsLine, metricsIndent, healthLine, preserved;
      if itemIndent == indent + "  " {
        var idx := IndexOfChar(line, '-');
        if idx > 0 {
          itemIndent' := line[..idx];
        }
      }
      if Contains(trimmed, "--metrics-bind-address") {
        metricsLine' := line;
        var idx := IndexOfChar(line, '-');
        if idx > 0 {
          metricsIndent' := line[..idx];
        }
      } else if Contains(trimmed, "--health-probe-bind-address") {
        healthLine' := line;
      } else if Contains(trimmed, "--webhook-cert-path") || Contains(trimmed, "--metrics-cert-path") {
        preserved' := preserved + [line];
      }
    }

    /** The strings.Builder part of templateControllerManagerArgs: the lines
        of the new block, each followed by a newline. */
    method BuildArgsBlock(indent: string, itemIndent: string, metricsLine: string, metricsIndent: string,
                          healthLine: string, preserved: seq<string>) returns (builder: string)
      ensures builder == Written(BlockLines(indent, ArgsScan(itemIndent, metricsLine, metricsIndent, healthLine, preserved)))
    {
      ghost var written: seq<string> := [];
      builder := AppendLine("", written, indent + "args:");
      written := written + [indent + "args:"];
      ghost var afterArgs := written;
      var mi := metricsIndent;
      if mi == "" {
        mi := itemIndent;
      }
      if metricsLine != "" {
        builder := AppendLines(builder, written, MetricsGuard(mi, metricsLine));
        written := written + MetricsGuard(mi, metricsLine);
      }
      ghost var afterMetrics := written;
      if healthLine != "" {
        builder := AppendLine(builder, written, healthLine);
        written := written + [healthLine];
      }
      ghost var afterHealth := written;
      builder := AppendLines(builder, written, RangeLoop(itemIndent));
      written := written + RangeLoop(itemIndent);
      builder := AppendLines(builder, written, preserved);
      written := written + preserved;
      BlockLinesParts(indent, ArgsScan(itemIndent, metricsLine, metricsIndent, healthLine, preserved), written,
                      afterArgs, afterMetrics, afterHealth);
    }

    /** Writes each of the given lines followed by a newline. */
    method AppendLines(builder: string, ghost written: seq<string>, ls: seq<string>) returns (b: string)
      requires builder == Written(written)
      ensures b == Written(written + ls)
    {
      b := builder;
      assert written + ls[..0] == written;
      for k := 0 to |ls|
        invariant b == Written(written + ls[..k])
      {
        assert written + ls[..k + 1] == (written + ls[..k]) + [ls[k]];
        b := AppendLine(b, written + ls[..k], ls[k]);
      }
      assert ls[..|ls|] == ls;
    }

    /** collapseBlankLineAfterIf. (The source's check for an empty split
        result is left out: splitting always gives at least one line.) */
    method CollapseBlankLineAfterIf(text: string) returns (out: string)
      ensures out == CollapseSpec(text)
    {
      var lines := Lines(text);
      var kept := CollapseLines(lines);
      return Unlines(kept);
    }

    /** The loop of collapseBlankLineAfterIf over the lines. */
    method CollapseLines(lines: seq<string>) returns (kept: seq<string>)
      ensures kept == Collapse(lines)
    {
      kept := [];
      var i := 0;
      assert lines[0..] == lines;
      while i < |lines|
        invariant 0 <= i <= |lines|
        invariant Collapse(lines) == kept + Collapse(lines[i..])
      {
        var line := lines[i];
        if Contains(line, IfMarker) {
          if i + 1 < |lines| && IsBlankLine(lines[i + 1]) {
            CollapseSkipAfterIf(lines, i);
            KeptStep(Collapse(lines), kept, line, Collapse(lines[i + 2..]));
            kept := kept + [line];
            i := i + 2;
          } else {
            CollapseKeep(lines, i);
            KeptStep(Collapse(lines), kept, line, Collapse(lines[i + 1..]));
            kept := kept + [line];
            i := i + 1;
          }
          continue;
        }
        if IsBlankLine(line) && i + 1 < |lines| && Contains(lines[i + 1], EndMarker) {
          CollapseDropBeforeEnd(lines, i);
          i := i + 1;
          continue;
        }
        CollapseKeep(lines, i);
        KeptStep(Collapse(lines), kept, line, Collapse(lines[i + 1..]));
        kept := kept + [line];
        i := i + 1;
      }
      assert Collapse(lines[i..]) == [];
      assert kept + [] == kept;
    }
  }
}
