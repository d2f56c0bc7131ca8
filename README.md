# Helm templater of the kubebuilder helm/v2alpha plugin, in Dafny

The helm/v2alpha plugin of kubebuilder turns the manifests that kustomize
renders into Helm chart templates. Its `HelmTemplater`
(`pkg/plugins/optional/helm/v2alpha/scaffolds/internal/kustomize/helm_templater.go`)
takes one manifest as text and runs a fixed chain of text-to-text passes:

1. conditional wrappers chosen by kind, API version and name;
2. namespace and certificate DNS-name substitution;
3. ServiceMonitor renaming;
4. the managed-by label;
5. for the manager Deployment:
   - the image, env, pod and container security contexts, resources and args;
   - the conditional args and volume rewrites;
6. a final collapse of stray blank lines.

This project models those passes on text as `seq<char>`, using Go's
`strings.Split`/`strings.Join` semantics on `"\n"` (`GoStrings.Lines` and
`GoStrings.Unlines`). It proves what each pass does to the lines.

The modules are:

- `GoStrings` (strings.dfy): the parts of Go's `strings` and `strconv`
  packages the passes use, each with a contract. Covered: `TrimSpace` with
  Go's Unicode white space, `Split`/`Join`, `ReplaceAll`, `Contains`,
  `HasPrefix`, `TrimPrefix`, `TrimRight` with one character, `Index`
  of a one-character string and `Itoa`. Includes the round trips `Join(Split(s)) == s` and
  `Split(Join(lines)) == lines`.
- `Blocks` (blocks.dfy): `leadingWhitespace`, the scan that finds the first
  key line, and the four stop rules of the block scans as one `StopRule`.
  `LocateBlockEnd` is the `for end := i + 1; ...; end++` loop, proved to
  stop exactly where the stop rule first fires.
- `BlockPasses` (block_passes.dfy): specification functions of the
  env/resources, pod/container security context and image passes. Each says
  which lines are kept, which are replaced, and when the pass leaves the text
  as it is.
- `ControllerManagerArgs` (args.dfy): the args rebuild. The loop's
  variables are proved equal to a reference definition: the last metrics
  item, the last health item, the cert-path items in order, and the first
  dash indentation. The block's lines are given in their fixed order.
- `ConditionalWrappers` (wrappers.dfy): the `addConditionalWrappers`
  switch, proved equal to an ordered table of rules where the first match
  wins. It also defines the wrapping and its inverse.
- `BlankLines` (collapse.dfy): `collapseBlankLineAfterIf`.
- `Substitutions` (substitutions.dfy): the `ReplaceAll` chains of the
  namespace and certificate passes, and the ServiceMonitor name.
- `ArgsSearch` (args_search.dfy): what the `args:` search hands to the args
  rewrite. `ArgsFound` states the match's shape, and the rewrite is proved to
  replace exactly the matched span.
- `Templater` (templater.dfy): the class `HelmTemplater` with its
  `projectName`. Its methods walk the lines as the Go code does: loops that
  move an `end` index, slices spliced back together, a `strings.Builder`
  kept as a string. Each method is proved to compute its specification
  function, and `ApplyHelmSubstitutions` is proved to compute the whole chain.

The ReplaceAll of `SERVICE_NAME.SERVICE_NAMESPACE.svc.cluster.local` at
helm_templater.go:142-143 never finds anything: the ReplaceAll just before it
has already rewritten every occurrence of its shorter prefix. The result is
still the intended one, because that earlier rewrite followed by
`.cluster.local` is exactly the cluster-qualified name. See
`ClusterPlaceholderReplacementIsNoop` and
`ClusterPlaceholderBecomesClusterName`.

The scan for the end of the `resources:` block (helm_templater.go:302-318)
stops at the key's own indentation only on a line with no `:` or one ending
in `:`. The comment at :311 says it stops at same-level keys, but a sibling
scalar key such as `terminationMessagePolicy: File` has a `:` and does not
end in one, so the scan runs past it and the rewrite replaces it along with
the resources. The model follows the code: `Blocks.ResourcesBlockRunsOverScalarKey`
states this case.

## Model

| member | source | states |
|---|---|---|
| `Templater.HelmTemplater.constructor` | pkg/plugins/optional/helm/v2alpha/scaffolds/internal/kustomize/helm_templater.go:55-59 | The templater keeps the project name it was given. |
| `Templater.HelmTemplater.ApplyHelmSubstitutions` | pkg/plugins/optional/helm/v2alpha/scaffolds/internal/kustomize/helm_templater.go:62-102 | Runs the passes in the templater's order and returns exactly their composition. The chain is: wrappers, namespace, ServiceMonitor name, managed-by, then for a Deployment the deployment fields and the conditional rewrites, then the collapse. |
| `Templater.NamespaceRendersNothing` | pkg/plugins/optional/helm/v2alpha/scaffolds/internal/kustomize/helm_templater.go:62-102 | A Namespace manifest comes out of the whole chain as the empty text. |
| `Templater.DeploymentFieldsWithoutManager` | pkg/plugins/optional/helm/v2alpha/scaffolds/internal/kustomize/helm_templater.go:220-233 | A manifest without the `name: manager` container and without a `securityContext:` key passes the deployment-field passes unchanged. |
| `Templater.HelmTemplater.TemplateDeploymentFields` | pkg/plugins/optional/helm/v2alpha/scaffolds/internal/kustomize/helm_templater.go:220-233 | Returns image, then env, pod security context, container security context, resources and args, applied in that order. |
| `Templater.HelmTemplater.TemplateKeyBlock` | pkg/plugins/optional/helm/v2alpha/scaffolds/internal/kustomize/helm_templater.go:236-343 | The env and resources passes compute `KeyBlockSpec`. Only the first key line is handled. The block ends where the list or map stop rule first fires. The result is the lines before, the six-line guarded block, then the lines from the block's end. The text is unchanged without the manager, without a key line, or when the next line already holds the values path. |
| `BlockPasses.KeyBlockSplice` | pkg/plugins/optional/helm/v2alpha/scaffolds/internal/kustomize/helm_templater.go:263-282 | When the pass rewrites, the output's lines are exactly `lines[:i]`, the replacement block and `lines[end:]`. |
| `BlockPasses.KeyBlockReplacementShape` | pkg/plugins/optional/helm/v2alpha/scaffolds/internal/kustomize/helm_templater.go:266-277 | The replacement has six lines and none holds a newline. Its first line is the key at the key line's indentation, and its second mentions the values path. |
| `BlockPasses.KeyBlockGuardHolds` | pkg/plugins/optional/helm/v2alpha/scaffolds/internal/kustomize/helm_templater.go:263-265 | If the line after the first key line mentions the values path, the output is the input. |
| `BlockPasses.KeyBlockIdempotent` | pkg/plugins/optional/helm/v2alpha/scaffolds/internal/kustomize/helm_templater.go:236-343 | Running the env (or resources) pass twice gives what running it once gives: the rewritten block trips the re-entry guard. |
| `BlockPasses.KeyBlockRewritten` | pkg/plugins/optional/helm/v2alpha/scaffolds/internal/kustomize/helm_templater.go:263-282 | After a rewrite, the first key line is at the same index and is now guarded. |
| `BlockPasses.FirstKeyLineKept` | pkg/plugins/optional/helm/v2alpha/scaffolds/internal/kustomize/helm_templater.go:242-246 | Keeping the lines before the first key line, and a key line at its index, keeps it the first key line. |
| `Blocks.LeadingWhitespace` | pkg/plugins/optional/helm/v2alpha/scaffolds/internal/kustomize/helm_templater.go:487-491 | Returns the longest prefix of spaces and tabs together with its length. The character after it, if any, is neither. |
| `Blocks.LeadingWhitespaceOfIndented` | pkg/plugins/optional/helm/v2alpha/scaffolds/internal/kustomize/helm_templater.go:487-491 | A line built as blanks followed by a non-blank character has exactly those blanks as its leading whitespace. |
| `Blocks.ScanEndSpec` | pkg/plugins/optional/helm/v2alpha/scaffolds/internal/kustomize/helm_templater.go:248-261 | Between the start and the end no line stops the block. The end is either the number of lines or a line that stops it under the block's rule. The rules are: a blank or dedented line for every block; at the key's own indentation, a line not starting with `-` (env), a line with no `:` or ending in `:` (resources); any line no deeper than the key (security context); a key line two deeper other than `imagePullPolicy` (image). |
| `Blocks.MapBlockAtKeyIndent` | pkg/plugins/optional/helm/v2alpha/scaffolds/internal/kustomize/helm_templater.go:311-317 | A non-blank line at the `resources:` key's own indentation ends the block exactly when it has no `:` or ends in `:`. |
| `Blocks.ResourcesBlockRunsOverScalarKey` | pkg/plugins/optional/helm/v2alpha/scaffolds/internal/kustomize/helm_templater.go:300-318 | When the line after `resources:` is a key at the same indentation with a `:` inside and not at the end, the block does not end there: the scan runs past the sibling key. |
| `Blocks.BlockEnd` | pkg/plugins/optional/helm/v2alpha/scaffolds/internal/kustomize/helm_templater.go:248-261 | The block of the key line at `i` ends at an index `end` with `i < end <= len(lines)`. |
| `Blocks.LocateBlockEnd` | pkg/plugins/optional/helm/v2alpha/scaffolds/internal/kustomize/helm_templater.go:248-261 | The loop that advances `end` stops at `BlockEnd`, the first line after the key line that stops the block. |
| `Blocks.FirstKeyLineSpec` | pkg/plugins/optional/helm/v2alpha/scaffolds/internal/kustomize/helm_templater.go:242-246 | The key line found matches the key, no earlier line does, and when none is found no line matches. |
| `Blocks.FirstKeyLineAt` | pkg/plugins/optional/helm/v2alpha/scaffolds/internal/kustomize/helm_templater.go:601-605 | A matching line with no matching line before it is the one the scan returns. |
| `Blocks.GuardedBlockShape` | pkg/plugins/optional/helm/v2alpha/scaffolds/internal/kustomize/helm_templater.go:266-277 | The guarded block has six lines. It starts with the key at the original indentation, mentions the values path on line two, and ends with `{{- end }}`. |
| `Blocks.GuardedBlockNoNewline` | pkg/plugins/optional/helm/v2alpha/scaffolds/internal/kustomize/helm_templater.go:266-277 | No line of the guarded block holds a newline. |
| `Templater.HelmTemplater.TemplateSecurityContext` | pkg/plugins/optional/helm/v2alpha/scaffolds/internal/kustomize/helm_templater.go:367-485 | The pod and container security context passes compute `SecurityContextSpec`. Both skip a `securityContext:` whose block runs to the last line. The pod pass skips a block not ended by `serviceAccountName:`, and the container pass one that is. The pod pass's guard is the next line; the container pass's guard is the key line through five lines past the end. |
| `BlockPasses.SecurityContextFound` | pkg/plugins/optional/helm/v2alpha/scaffolds/internal/kustomize/helm_templater.go:373-397 | What the scan finds is a `securityContext:` line whose nested block ends before the last line. That block ends at a `serviceAccountName:` line exactly for the pod pass. |
| `BlockPasses.SecurityContextSkipped` | pkg/plugins/optional/helm/v2alpha/scaffolds/internal/kustomize/helm_templater.go:373-397 | Every line the scan passes over is either not a `securityContext:` line or one the pass does not take. |
| `BlockPasses.SecurityContextComplementary` | pkg/plugins/optional/helm/v2alpha/scaffolds/internal/kustomize/helm_templater.go:395-397 | The first `securityContext:` block that ends before the last line is taken by exactly one of the two passes: the pod pass when it ends at `serviceAccountName:`, otherwise the container pass. |
| `BlockPasses.SecurityContextStopsAtEnd` | pkg/plugins/optional/helm/v2alpha/scaffolds/internal/kustomize/helm_templater.go:391-393 | If the first `securityContext:` block runs to the end of the text, both passes return the text unchanged. |
| `BlockPasses.SecurityContextSplice` | pkg/plugins/optional/helm/v2alpha/scaffolds/internal/kustomize/helm_templater.go:399-418 | When the guard holds, the text is unchanged. Otherwise the output's lines are `lines[:i]`, the six-line block, then `lines[end:]`. |
| `BlockPasses.SecurityContextReplacementShape` | pkg/plugins/optional/helm/v2alpha/scaffolds/internal/kustomize/helm_templater.go:403-413 | The security context replacement has six newline-free lines. |
| `BlockPasses.SecurityContextIdempotent` | pkg/plugins/optional/helm/v2alpha/scaffolds/internal/kustomize/helm_templater.go:367-485 | Running the pod (or the container) security context pass twice gives what running it once gives: the rewritten block is the one the second run finds, and its guard holds. |
| `BlockPasses.SkipToFirst` | pkg/plugins/optional/helm/v2alpha/scaffolds/internal/kustomize/helm_templater.go:373-378 | Lines that are not `securityContext:` lines do not change what the scan finds. |
| `Templater.HelmTemplater.TemplateImageReference` | pkg/plugins/optional/helm/v2alpha/scaffolds/internal/kustomize/helm_templater.go:595-660 | The image pass computes `ImageSpec`. Only the first `image:` line counts. If it already holds the repository path, the text is unchanged. Otherwise the line and its block become the two templated lines at its indentation, and one `imagePullPolicy:` line right after the block is dropped. |
| `Templater.HelmTemplater.FilterPullPolicy` | pkg/plugins/optional/helm/v2alpha/scaffolds/internal/kustomize/helm_templater.go:632-640 | The loop keeps exactly the block lines `WithoutPullPolicy` keeps, in order. |
| `BlockPasses.WithoutPullPolicyDrops` | pkg/plugins/optional/helm/v2alpha/scaffolds/internal/kustomize/helm_templater.go:635-638 | No line the filter keeps mentions `imagePullPolicy` once trimmed. |
| `BlockPasses.WithoutPullPolicyKeeps` | pkg/plugins/optional/helm/v2alpha/scaffolds/internal/kustomize/helm_templater.go:635-640 | A block with no such line is kept as it is. |
| `Templater.InPlaceRewrite` | pkg/plugins/optional/helm/v2alpha/scaffolds/internal/kustomize/helm_templater.go:633-643 | Writing the filtered block back into `lines` in place leaves the lines before the image line and after the block where they were. |
| `BlockPasses.ImageSplice` | pkg/plugins/optional/helm/v2alpha/scaffolds/internal/kustomize/helm_templater.go:643-656 | When the pass rewrites, the output's lines are `lines[:i]`, the two templated lines, then the rest with one leading `imagePullPolicy:` line removed. |
| `BlockPasses.ImageLinesShape` | pkg/plugins/optional/helm/v2alpha/scaffolds/internal/kustomize/helm_templater.go:645-647 | The first emitted line is again an `image:` line and carries the repository path, so a second run finds its guard. |
| `BlockPasses.ImageGuardHolds` | pkg/plugins/optional/helm/v2alpha/scaffolds/internal/kustomize/helm_templater.go:607-609 | An `image:` line that already holds the repository path leaves the text unchanged. |
| `BlockPasses.ImageIdempotent` | pkg/plugins/optional/helm/v2alpha/scaffolds/internal/kustomize/helm_templater.go:595-660 | Running the image pass twice gives what running it once gives. |
| `Templater.HelmTemplater.TemplateControllerManagerArgs` | pkg/plugins/optional/helm/v2alpha/scaffolds/internal/kustomize/helm_templater.go:494-592 | Given where the `args:` list was found, computes `ArgsSpec`. Without the manager, without a list, or when the list already holds the args values path, the text is unchanged. When the match is one `ArgsFound` describes, the output is the text before the match, the rebuilt block, then the text after it, and the text is unchanged exactly when the manager is absent or the matched list holds the values path. |
| `ArgsSearch.ArgsRewriteSpan` | pkg/plugins/optional/helm/v2alpha/scaffolds/internal/kustomize/helm_templater.go:494-511 | For a match that splits the text into before, `args:` list and after: the pass leaves the text unchanged exactly when there is no `name: manager` or the list mentions the args values path. Otherwise only the matched span changes, into the rebuilt block. With the manager present the output always mentions the values path. |
| `Templater.HelmTemplater.ScanItemLines` | pkg/plugins/optional/helm/v2alpha/scaffolds/internal/kustomize/helm_templater.go:514-550 | After the loop over the item lines, the five loop variables are `ScanArgs` of those lines. |
| `Templater.HelmTemplater.AbsorbLine` | pkg/plugins/optional/helm/v2alpha/scaffolds/internal/kustomize/helm_templater.go:523-549 | One non-blank item updates the five variables as `Absorb` does. |
| `Templater.HelmTemplater.BuildArgsBlock` | pkg/plugins/optional/helm/v2alpha/scaffolds/internal/kustomize/helm_templater.go:552-589 | The builder holds `BlockLines`, each line followed by a newline. |
| `Templater.HelmTemplater.AppendLines` | pkg/plugins/optional/helm/v2alpha/scaffolds/internal/kustomize/helm_templater.go:584-587 | Writing lines one by one to the builder appends them, each with its newline. |
| `ControllerManagerArgs.ClassifyChain` | pkg/plugins/optional/helm/v2alpha/scaffolds/internal/kustomize/helm_templater.go:535-549 | An item is a metrics-bind item if it mentions `--metrics-bind-address`. Otherwise it is a health item if it mentions `--health-probe-bind-address`, a cert-path item if it mentions either cert path, and otherwise other. |
| `ControllerManagerArgs.DashPrefixSpec` | pkg/plugins/optional/helm/v2alpha/scaffolds/internal/kustomize/helm_templater.go:529-533 | The dash prefix is the non-empty text before the first `-`, and there is none when the line starts with `-` or holds no `-`. |
| `ControllerManagerArgs.ScanMatchesReference` | pkg/plugins/optional/helm/v2alpha/scaffolds/internal/kustomize/helm_templater.go:514-550 | The loop's variables equal the reference definition. That is: the last metrics-bind item and the dash prefix of the last such item that has one; the last health item; the cert-path items in their order; and the first differing dash indentation. |
| `ControllerManagerArgs.StepReference` | pkg/plugins/optional/helm/v2alpha/scaffolds/internal/kustomize/helm_templater.go:522-549 | One raw line moves the reference definition from the items so far to the items including it. |
| `ControllerManagerArgs.OfKindHasKind` | pkg/plugins/optional/helm/v2alpha/scaffolds/internal/kustomize/helm_templater.go:543-546 | Every preserved item is of the kind it was sorted into. |
| `ControllerManagerArgs.OfKindIsSubset` | pkg/plugins/optional/helm/v2alpha/scaffolds/internal/kustomize/helm_templater.go:543-546 | Every preserved item is one of the input items. |
| `ControllerManagerArgs.LastOfKindPresence` | pkg/plugins/optional/helm/v2alpha/scaffolds/internal/kustomize/helm_templater.go:536-542 | The last item of a kind is non-empty exactly when an item of that kind exists. |
| `ControllerManagerArgs.ArgsPresence` | pkg/plugins/optional/helm/v2alpha/scaffolds/internal/kustomize/helm_templater.go:558-579 | The metrics guard and the health line are written exactly when such an item exists among the items. |
| `ControllerManagerArgs.ArgsBlockLines` | pkg/plugins/optional/helm/v2alpha/scaffolds/internal/kustomize/helm_templater.go:552-589 | The rebuilt block's lines come in this order: `args:`; the metrics guard if a metrics item exists; the last health item if any; the three-line range loop; the cert-path items in order; then the empty text after the final newline. |
| `ControllerManagerArgs.RebuildIsWritten` | pkg/plugins/optional/helm/v2alpha/scaffolds/internal/kustomize/helm_templater.go:589 | Trimming the trailing newlines and adding one gives back what the builder wrote. |
| `ControllerManagerArgs.RebuildHasGuard` | pkg/plugins/optional/helm/v2alpha/scaffolds/internal/kustomize/helm_templater.go:506-508 | The rebuilt block mentions `.Values.controllerManager.args`, so the pass's own guard stops a second rebuild. |
| `ControllerManagerArgs.WrittenIsUnlines` | pkg/plugins/optional/helm/v2alpha/scaffolds/internal/kustomize/helm_templater.go:552-587 | Lines written one by one with their newlines are their join followed by a newline. |
| `ConditionalWrappers.Decide` | pkg/plugins/optional/helm/v2alpha/scaffolds/internal/kustomize/helm_templater.go:885-936 | A manifest is dropped exactly when it is a Namespace, and gets webhook annotations exactly when it is a validating or mutating webhook configuration. A Deployment is left as it is, and the metrics-only guard is chosen only for a name containing `metrics`. |
| `ConditionalWrappers.AddConditionalWrappers` | pkg/plugins/optional/helm/v2alpha/scaffolds/internal/kustomize/helm_templater.go:880-936 | A wrapped manifest unwraps, under the chosen condition, to the input text. A Namespace becomes the empty text, and a manifest the switch leaves alone is returned unchanged. |
| `ConditionalWrappers.DecideIsFirstMatch` | pkg/plugins/optional/helm/v2alpha/scaffolds/internal/kustomize/helm_templater.go:885-936 | For every manifest, the switch gives the outcome of the first matching row of the rule table. The rows in order are: Namespace, CRD, metrics certificate, certificate, issuer, ServiceMonitor, helper RBAC, metrics RBAC, RBAC, webhooks, metrics service. |
| `ConditionalWrappers.CertificateCondition` | pkg/plugins/optional/helm/v2alpha/scaffolds/internal/kustomize/helm_templater.go:891-899 | A cert-manager certificate is wrapped with the metrics and cert-manager guard and a final newline when its name contains `metrics`. Otherwise it gets the cert-manager guard without one; the `metrics-cert` test adds nothing. |
| `ConditionalWrappers.ContainsPrefixOf` | pkg/plugins/optional/helm/v2alpha/scaffolds/internal/kustomize/helm_templater.go:893 | A name containing a string contains every prefix of it. |
| `ConditionalWrappers.UnwrapWrap` | pkg/plugins/optional/helm/v2alpha/scaffolds/internal/kustomize/helm_templater.go:890 | Removing the directives from a wrapped manifest gives the manifest back. |
| `ConditionalWrappers.NamespaceDropped` | pkg/plugins/optional/helm/v2alpha/scaffolds/internal/kustomize/helm_templater.go:886-887 | A Namespace manifest becomes the empty text. |
| `ConditionalWrappers.EssentialRBACUnchanged` | pkg/plugins/optional/helm/v2alpha/scaffolds/internal/kustomize/helm_templater.go:907-920 | An RBAC manifest that is neither a helper role nor about metrics is returned as it is. |
| `ConditionalWrappers.WrapperNotIdempotent` | pkg/plugins/optional/helm/v2alpha/scaffolds/internal/kustomize/helm_templater.go:888-931 | Wrapping is not idempotent: a second run adds another pair of directives. |
| `Templater.HelmTemplater.CollapseBlankLineAfterIf` | pkg/plugins/optional/helm/v2alpha/scaffolds/internal/kustomize/helm_templater.go:942-965 | Computes `CollapseSpec`: the joined lines that the forward scan keeps. |
| `Templater.HelmTemplater.CollapseLines` | pkg/plugins/optional/helm/v2alpha/scaffolds/internal/kustomize/helm_templater.go:947-963 | The loop with its `i++` skip keeps exactly `Collapse` of the lines. |
| `BlankLines.CollapseIsSubsequence` | pkg/plugins/optional/helm/v2alpha/scaffolds/internal/kustomize/helm_templater.go:947-963 | The kept lines are a subsequence of the input lines. |
| `BlankLines.CollapseKeepsNonBlank` | pkg/plugins/optional/helm/v2alpha/scaffolds/internal/kustomize/helm_templater.go:947-963 | Only white-space lines are removed: the non-blank lines survive, in order. |
| `BlankLines.CollapseWithoutDirectives` | pkg/plugins/optional/helm/v2alpha/scaffolds/internal/kustomize/helm_templater.go:947-963 | Lines with no `{{- if ` and no `{{- end }}` are all kept. |
| `BlankLines.CollapseRemovesBlankAfterIf` | pkg/plugins/optional/helm/v2alpha/scaffolds/internal/kustomize/helm_templater.go:951-957 | A blank line right after an if line is removed. |
| `BlankLines.CollapseRemovesBlankBeforeEnd` | pkg/plugins/optional/helm/v2alpha/scaffolds/internal/kustomize/helm_templater.go:959-961 | A blank line right before an end line is removed. |
| `BlankLines.BlankHasNoMarker` | pkg/plugins/optional/helm/v2alpha/scaffolds/internal/kustomize/helm_templater.go:951-959 | A white-space line never holds a directive. |
| `Substitutions.SubstituteNamespace` | pkg/plugins/optional/helm/v2alpha/scaffolds/internal/kustomize/helm_templater.go:110-124 | Every occurrence of `project + "-system"` is replaced by `{{ .Release.Namespace }}`, stated as the join of the split on it. A certificate then goes through the DNS-name pass, and nothing else does. |
| `Substitutions.NamespaceAbsent` | pkg/plugins/optional/helm/v2alpha/scaffolds/internal/kustomize/helm_templater.go:110-124 | Text without the hard-coded namespace passes unchanged. |
| `Substitutions.ReplaceAllRemoves` | pkg/plugins/optional/helm/v2alpha/scaffolds/internal/kustomize/helm_templater.go:141 | After replacing a pattern by a text that shares no first character with it, no occurrence of the pattern is left. |
| `Substitutions.MetricsCertificateHasNoPlaceholder` | pkg/plugins/optional/helm/v2alpha/scaffolds/internal/kustomize/helm_templater.go:131-141 | After the first DNS-name rewrite of a metrics certificate, no `SERVICE_NAME.SERVICE_NAMESPACE.svc` remains. |
| `Substitutions.ClusterPlaceholderReplacementIsNoop` | pkg/plugins/optional/helm/v2alpha/scaffolds/internal/kustomize/helm_templater.go:141-145 | The second DNS-name rewrite never changes the text. |
| `Substitutions.ClusterPlaceholderBecomesClusterName` | pkg/plugins/optional/helm/v2alpha/scaffolds/internal/kustomize/helm_templater.go:141-145 | The first rewrite alone turns the `.cluster.local` placeholder into the cluster-qualified service name. |
| `Substitutions.SubstituteCertificateDNSNames` | pkg/plugins/optional/helm/v2alpha/scaffolds/internal/kustomize/helm_templater.go:127-156 | For a name without `metrics`, only the issuer name is templated; the `metrics-cert` test adds nothing. For a metrics name, the placeholder becomes the metrics service FQDN, the hard-coded metrics service name becomes its template and then the issuer is templated; the `.cluster.local` rewrite is left out because it never fires. |
| `Substitutions.ServiceMonitorSuffixRestores` | pkg/plugins/optional/helm/v2alpha/scaffolds/internal/kustomize/helm_templater.go:186-191 | The suffix is the name after `project + "-"` when that is a prefix (and prefix plus suffix rebuild the name), otherwise the whole name. |
| `Substitutions.TemplateServiceMonitorNames` | pkg/plugins/optional/helm/v2alpha/scaffolds/internal/kustomize/helm_templater.go:176-202 | Only a ServiceMonitor with a non-empty name is touched. For one, the name-line rewrite is called with the old name and `{{ include "chart.name" . }}-` followed by the name less its `project + "-"` prefix, or the whole name when it lacks that prefix. |
| `GoStrings.TrimSpace` | pkg/plugins/optional/helm/v2alpha/scaffolds/internal/kustomize/helm_templater.go:243 | The trimmed text is empty exactly when the line is all white space; otherwise it starts and ends with a non-space. |
| `GoStrings.TrimSpaceSpec` | pkg/plugins/optional/helm/v2alpha/scaffolds/internal/kustomize/helm_templater.go:243 | The trimmed text is a slice of the line with only white space before and after it. |
| `GoStrings.TrimRightCharDropsOnlyCut` | pkg/plugins/optional/helm/v2alpha/scaffolds/internal/kustomize/helm_templater.go:589 | Every character the right trim removes is the cut character. |
| `GoStrings.JoinSplit` | pkg/plugins/optional/helm/v2alpha/scaffolds/internal/kustomize/helm_templater.go:241-282 | Joining the split of a text on a separator gives the text back. |
| `GoStrings.SplitJoinLines` | pkg/plugins/optional/helm/v2alpha/scaffolds/internal/kustomize/helm_templater.go:241-282 | Splitting the join of newline-free lines gives the lines back. |
| `GoStrings.ReplaceAllIsSplitJoin` | pkg/plugins/optional/helm/v2alpha/scaffolds/internal/kustomize/helm_templater.go:116 | `ReplaceAll` equals joining the split on the pattern with the replacement. |
| `GoStrings.ItoaRoundTrip` | pkg/plugins/optional/helm/v2alpha/scaffolds/internal/kustomize/helm_templater.go:268 | The decimal text of a number reads back as the number. |
| `GoStrings.IndexOfCharSpec` | pkg/plugins/optional/helm/v2alpha/scaffolds/internal/kustomize/helm_templater.go:530 | The index found holds the character and no earlier one does; -1 means the character does not occur. |

## Left out

- The regular-expression passes are parameters of the model, in the record `Templater.RegexPasses`. They rely on Go RE2 semantics: `\s` matching newlines, non-greedy spans and leftmost matches. They are:
  - the managed-by label (helm_templater.go:205-212);
  - the ServiceMonitor `name:` line (:198-199);
  - the webhook annotations (:663-685);
  - the per-line cert-path args (:688-724);
  - the four volume and volume-mount passes (:727-877);
  - the search for the `args:` list (:499-505).
- The pipeline is proved to apply these passes in their place in the chain; what each one does to the text is not modelled.
- The passes that return their input unchanged are not in the chain, because composing with the identity changes nothing. They are `substituteProjectNames`, `substituteCertManagerReferences`, `substituteRBACValues`, `templateSecurityContexts`, `templateVolumeMounts` and `templateVolumes`.
- `unstructured.Unstructured` is reduced to the three fields read from it: kind, API version and name.
- Text is a sequence of Unicode code points rather than UTF-8 bytes. `strings.TrimSpace` uses Go's `unicode.IsSpace` set, and no case folding is involved anywhere.
- `fmt.Sprintf` is string concatenation. `strconv.Itoa` is needed only for non-negative widths.
- Whole-pipeline idempotence is not claimed, because the source does not have it: the conditional wrappers wrap again on every run (`WrapperNotIdempotent`). Idempotence is proved for the env, resources, security context and image passes.
- The `${1}` group reference and the `\s*` spans of the ServiceMonitor name-line rewrite (helm_templater.go:198-199) are not modelled: that rewrite is the parameter `renameLine`, called with the old and the new name.
- The `len(lines) == 0` check of `collapseBlankLineAfterIf` is unreachable: splitting always yields at least one line. The model has no such branch.
- The filtered block written back into `lines` at helm_templater.go:633-642 never reaches the output, only its length is used. The model's spec skips it, and `InPlaceRewrite` shows that what is read later is unaffected.
