/** The first pass of the templater: each manifest is wrapped in the Helm
    if directive that enables it, chosen by its kind, API version and name. */
module ConditionalWrappers {
  import opened GoStrings

  const KindNamespace := "Namespace"
  const KindCRD := "CustomResourceDefinition"
  const KindCertificate := "Certificate"
  const KindService := "Service"
  const KindServiceAccount := "ServiceAccount"
  const KindRole := "Role"
  const KindClusterRole := "ClusterRole"
  const KindRoleBinding := "RoleBinding"
  const KindClusterRoleBinding := "ClusterRoleBinding"
  const KindServiceMonitor := "ServiceMonitor"
  const KindIssuer := "Issuer"
  const KindValidatingWebhook := "ValidatingWebhookConfiguration"
  const KindMutatingWebhook := "MutatingWebhookConfiguration"
  const KindDeployment := "Deployment"

  const APIVersionCertManager := "cert-manager.io/v1"
  const APIVersionMonitoring := "monitoring.coreos.com/v1"

  /** The fields of a manifest the templater reads. */
  datatype Resource = Resource(kind: string, apiVersion: string, name: string)

  predicate IsRBACKind(kind: string) {
    kind == KindServiceAccount || kind == KindRole || kind == KindClusterRole
      || kind == KindRoleBinding || kind == KindClusterRoleBinding
  }

  /** What the pass does with a manifest. */
  datatype Wrapping =
    | Dropped                                       // the Namespace manifest is not emitted
    | Wrapped(condition: string, newline: bool)     // behind `if condition`, with or without a final newline
    | WebhookAnnotations                            // only the cert-manager annotations become conditional
    | Unchanged

  const CRDCondition := ".Values.crd.enable"
  const MetricsCertCondition := "and .Values.certManager.enable .Values.metrics.enable"
  const CertManagerCondition := ".Values.certManager.enable"
  const PrometheusCondition := ".Values.prometheus.enable"
  const RBACHelpersCondition := ".Values.rbacHelpers.enable"
  const MetricsCondition := ".Values.metrics.enable"

  /** The switch of addConditionalWrappers, case by case: only the Namespace
      is dropped, only the two webhook configurations get conditional
      annotations, the Deployment is always rendered, and a manifest enabled by
      the metrics switch alone is one whose name mentions metrics. */
  function Decide(r: Resource): (w: Wrapping)
    ensures w == Dropped <==> r.kind == KindNamespace
    ensures w == WebhookAnnotations <==> r.kind == KindValidatingWebhook || r.kind == KindMutatingWebhook
    ensures r.kind == KindDeployment ==> w == Unchanged
    ensures w == Wrapped(MetricsCondition, true) ==> Contains(r.name, "metrics")
  {
    if r.kind == KindNamespace then Dropped
    else if r.kind == KindCRD then Wrapped(CRDCondition, true)
    else if r.kind == KindCertificate && r.apiVersion == APIVersionCertManager then
      if Contains(r.name, "metrics-cert") || Contains(r.name, "metrics") then Wrapped(MetricsCertCondition, true)
      else Wrapped(CertManagerCondition, false)
    else if r.kind == KindIssuer && r.apiVersion == APIVersionCertManager then Wrapped(CertManagerCondition, false)
    else if r.kind == KindServiceMonitor && r.apiVersion == APIVersionMonitoring then Wrapped(PrometheusCondition, false)
    else if IsRBACKind(r.kind) then
      if Contains(r.name, "admin-role") || Contains(r.name, "editor-role") || Contains(r.name, "viewer-role") then
        Wrapped(RBACHelpersCondition, true)
      else if Contains(r.name, "metrics") then Wrapped(MetricsCondition, true)
      else Unchanged
    else if r.kind == KindValidatingWebhook || r.kind == KindMutatingWebhook then WebhookAnnotations
    else if r.kind == KindService then
      if Contains(r.name, "metrics") then Wrapped(MetricsCondition, true) else Unchanged
    else Unchanged
  }

  /** The text between an if directive and its end, with or without a newline
      after the end. */
  function Wrap(condition: string, text: string, newline: bool): string {
    "{{- if " + condition + " }}\n" + text + "{{- end }}" + (if newline then "\n" else "")
  }

  /** The pass; makeWebhookAnnotationsConditional, a regular-expression
      rewrite, is the parameter `annotate`. */
  function AddConditionalWrappers(text: string, r: Resource, annotate: string -> string): (out: string)
    ensures Decide(r).Wrapped? ==> Unwrap(out, Decide(r).condition, Decide(r).newline) == Some(text)
    ensures r.kind == KindNamespace ==> out == ""
    ensures Decide(r) == Unchanged ==> out == text
  {
    match Decide(r)
    case Dropped => ""
    case Wrapped(c, nl) => UnwrapWrap(c, text, nl); Wrap(c, text, nl)
    case WebhookAnnotations => annotate(text)
    case Unchanged => text
  }

  // ---------------------------------------------------------------------
  // The same decision as a table of rules, the first that matches winning

  /** A row of the table: the kinds it covers, the API version it needs (if
      any), the name fragments one of which it needs (none: any name), and
      its outcome. */
  datatype Rule = Rule(kinds: seq<string>, apiVersion: Option<string>, nameFragments: seq<string>, outcome: Wrapping)

  const RBACKinds := [KindServiceAccount, KindRole, KindClusterRole, KindRoleBinding, KindClusterRoleBinding]

  const NamespaceRule := Rule([KindNamespace], None, [], Dropped)
  const CRDRule := Rule([KindCRD], None, [], Wrapped(CRDCondition, true))
  const MetricsCertRule := Rule([KindCertificate], Some(APIVersionCertManager), ["metrics"], Wrapped(MetricsCertCondition, true))
  const CertRule := Rule([KindCertificate], Some(APIVersionCertManager), [], Wrapped(CertManagerCondition, false))
  const IssuerRule := Rule([KindIssuer], Some(APIVersionCertManager), [], Wrapped(CertManagerCondition, false))
  const MonitorRule := Rule([KindServiceMonitor], Some(APIVersionMonitoring), [], Wrapped(PrometheusCondition, false))
  const HelperRoleRule := Rule(RBACKinds, None, ["admin-role", "editor-role", "viewer-role"], Wrapped(RBACHelpersCondition, true))
  const MetricsRBACRule := Rule(RBACKinds, None, ["metrics"], Wrapped(MetricsCondition, true))
  const RBACRule := Rule(RBACKinds, None, [], Unchanged)
  const WebhookRule := Rule([KindValidatingWebhook, KindMutatingWebhook], None, [], WebhookAnnotations)
  const MetricsServiceRule := Rule([KindService], None, ["metrics"], Wrapped(MetricsCondition, true))

  const Table: seq<Rule> := [NamespaceRule, CRDRule, MetricsCertRule, CertRule, IssuerRule, MonitorRule,
                             HelperRoleRule, MetricsRBACRule, RBACRule, WebhookRule, MetricsServiceRule]

  predicate NameMatches(name: string, fragments: seq<string>) {
    fragments == [] || exists j :: 0 <= j < |fragments| && Contains(name, fragments[j])
  }

  predicate RuleMatches(rule: Rule, r: Resource) {
    && r.kind in rule.kinds
    && (rule.apiVersion.Some? ==> r.apiVersion == rule.apiVersion.value)
    && NameMatches(r.name, rule.nameFragments)
  }

  /** The outcome of the first matching rule; a manifest no rule matches is
      left unchanged. */
  function FirstMatch(rules: seq<Rule>, r: Resource): Wrapping
    decreases |rules|
  {
    if rules == [] then Unchanged
    else if RuleMatches(rules[0], r) then rules[0].outcome
    else FirstMatch(rules[1..], r)
  }

  /** A name that contains "metrics-cert" contains "metrics": the
      certificate case's two tests are one. */
  lemma {:induction false} ContainsPrefixOf(s: string, p: string, q: string)
    requires HasPrefix(q, p) && Contains(s, q)
    ensures Contains(s, p)
    decreases |s|
  {
    if HasPrefix(s, q) {
      assert s[..|p|] == q[..|p|];
    } else {
      ContainsPrefixOf(s[1..], p, q);
    }
  }

  lemma NameMatchesAny3(name: string, a: string, b: string, c: string)
    ensures NameMatches(name, [a, b, c]) <==> Contains(name, a) || Contains(name, b) || Contains(name, c)
  {
    var f := [a, b, c];
    if Contains(name, a) { assert Contains(name, f[0]); }
    if Contains(name, b) { assert Contains(name, f[1]); }
    if Contains(name, c) { assert Contains(name, f[2]); }
  }

  lemma NameMatchesOne(name: string, a: string)
    ensures NameMatches(name, [a]) <==> Contains(name, a)
  {
    if Contains(name, a) { assert Contains(name, [a][0]); }
  }

  lemma FirstMatchStep(rules: seq<Rule>, k: nat, r: Resource)
    requires k < |rules|
    ensures FirstMatch(rules[k..], r) == if RuleMatches(rules[k], r) then rules[k].outcome else FirstMatch(rules[k + 1..], r)
  {
    assert rules[k..][1..] == rules[k + 1..];
  }

  lemma UpperRowsMatch(r: Resource)
    ensures RuleMatches(NamespaceRule, r) <==> r.kind == KindNamespace
    ensures RuleMatches(CRDRule, r) <==> r.kind == KindCRD
    ensures RuleMatches(MetricsCertRule, r) <==>
      r.kind == KindCertificate && r.apiVersion == APIVersionCertManager && Contains(r.name, "metrics")
    ensures RuleMatches(CertRule, r) <==> r.kind == KindCertificate && r.apiVersion == APIVersionCertManager
    ensures RuleMatches(IssuerRule, r) <==> r.kind == KindIssuer && r.apiVersion == APIVersionCertManager
    ensures RuleMatches(MonitorRule, r) <==> r.kind == KindServiceMonitor && r.apiVersion == APIVersionMonitoring
  {
    NameMatchesOne(r.name, "metrics");
  }

  lemma LowerRowsMatch(r: Resource)
    ensures RuleMatches(HelperRoleRule, r) <==>
      IsRBACKind(r.kind) && (Contains(r.name, "admin-role") || Contains(r.name, "editor-role") || Contains(r.name, "viewer-role"))
    ensures RuleMatches(MetricsRBACRule, r) <==> IsRBACKind(r.kind) && Contains(r.name, "metrics")
    ensures RuleMatches(RBACRule, r) <==> IsRBACKind(r.kind)
    ensures RuleMatches(WebhookRule, r) <==> r.kind == KindValidatingWebhook || r.kind == KindMutatingWebhook
    ensures RuleMatches(MetricsServiceRule, r) <==> r.kind == KindService && Contains(r.name, "metrics")
  {
    NameMatchesOne(r.name, "metrics");
    NameMatchesAny3(r.name, "admin-role", "editor-role", "viewer-role");
  }

  /** The rows a manifest of no certificate, issuer or monitor kind passes
      over before the RBAC rows. */
  lemma UpperRows(r: Resource)
    requires r.kind != KindNamespace && r.kind != KindCRD
    requires !(r.kind == KindCertificate && r.apiVersion == APIVersionCertManager)
    requires !(r.kind == KindIssuer && r.apiVersion == APIVersionCertManager)
    requires !(r.kind == KindServiceMonitor && r.apiVersion == APIVersionMonitoring)
    ensures FirstMatch(Table, r) == FirstMatch(Table[6..], r)
  {
    UpperRowsMatch(r);
    FirstMatchStep(Table, 0, r);
    FirstMatchStep(Table, 1, r);
    FirstMatchStep(Table, 2, r);
    FirstMatchStep(Table, 3, r);
    FirstMatchStep(Table, 4, r);
    FirstMatchStep(Table, 5, r);
  }

  /** The RBAC rows decide every manifest of an RBAC kind. */
  lemma RBACRows(r: Resource)
    requires IsRBACKind(r.kind)
    ensures FirstMatch(Table[6..], r) == Decide(r)
  {
    LowerRowsMatch(r);
    FirstMatchStep(Table, 6, r);
    FirstMatchStep(Table, 7, r);
    FirstMatchStep(Table, 8, r);
  }

  /** The webhook and service rows decide the remaining manifests. */
  lemma LowerRows(r: Resource)
    requires r.kind != KindNamespace && r.kind != KindCRD
    requires !(r.kind == KindCertificate && r.apiVersion == APIVersionCertManager)
    requires !(r.kind == KindIssuer && r.apiVersion == APIVersionCertManager)
    requires !(r.kind == KindServiceMonitor && r.apiVersion == APIVersionMonitoring)
    requires !IsRBACKind(r.kind)
    ensures FirstMatch(Table[6..], r) == Decide(r)
  {
    LowerRowsMatch(r);
    FirstMatchStep(Table, 6, r);
    FirstMatchStep(Table, 7, r);
    FirstMatchStep(Table, 8, r);
    FirstMatchStep(Table, 9, r);
    if r.kind == KindValidatingWebhook || r.kind == KindMutatingWebhook {
    } else {
      FirstMatchStep(Table, 10, r);
      assert Table[11..] == [];
    }
  }

  /** The switch and the table agree on every manifest. */
  lemma DecideIsFirstMatch(r: Resource)
    ensures Decide(r) == FirstMatch(Table, r)
  {
    UpperRowsMatch(r);
    FirstMatchStep(Table, 0, r);
    if r.kind == KindNamespace {
    } else if r.kind == KindCRD {
      FirstMatchStep(Table, 1, r);
    } else if r.kind == KindCertificate && r.apiVersion == APIVersionCertManager {
      if Contains(r.name, "metrics-cert") {
        ContainsPrefixOf(r.name, "metrics", "metrics-cert");
      }
      FirstMatchStep(Table, 1, r);
      FirstMatchStep(Table, 2, r);
      FirstMatchStep(Table, 3, r);
    } else if r.kind == KindIssuer && r.apiVersion == APIVersionCertManager {
      FirstMatchStep(Table, 1, r);
      FirstMatchStep(Table, 2, r);
      FirstMatchStep(Table, 3, r);
      FirstMatchStep(Table, 4, r);
    } else if r.kind == KindServiceMonitor && r.apiVersion == APIVersionMonitoring {
      FirstMatchStep(Table, 1, r);
      FirstMatchStep(Table, 2, r);
      FirstMatchStep(Table, 3, r);
      FirstMatchStep(Table, 4, r);
      FirstMatchStep(Table, 5, r);
    } else {
      UpperRows(r);
      if IsRBACKind(r.kind) {
        RBACRows(r);
      } else {
        LowerRows(r);
      }
    }
  }

  // ---------------------------------------------------------------------
  // What the pass does to the text

  function OpenDirective(condition: string): string {
    "{{- if " + condition + " }}\n"
  }

  function CloseDirective(newline: bool): string {
    "{{- end }}" + (if newline then "\n" else "")
  }

  /** The inverse of Wrap: the manifest between the directives. */
  function Unwrap(wrapped: string, condition: string, newline: bool): (r: Option<string>)
    ensures r.Some? ==> |r.value| + |OpenDirective(condition)| + |CloseDirective(newline)| == |wrapped|
  {
    var o := OpenDirective(condition);
    var c := CloseDirective(newline);
    if |o| + |c| <= |wrapped| && wrapped[..|o|] == o && wrapped[|wrapped| - |c|..] == c then
      Some(wrapped[|o|..|wrapped| - |c|])
    else None
  }

  /** Unwrapping a wrapped manifest gives it back. */
  lemma UnwrapWrap(condition: string, text: string, newline: bool)
    ensures Unwrap(Wrap(condition, text, newline), condition, newline) == Some(text)
  {
    var o := OpenDirective(condition);
    var c := CloseDirective(newline);
    var w := Wrap(condition, text, newline);
    assert w == o + text + c;
    assert w[..|o|] == o;
    assert w[|w| - |c|..] == c;
    assert w[|o|..|w| - |c|] == text;
  }

  /** The Namespace manifest is removed whatever it holds. */
  lemma NamespaceDropped(text: string, r: Resource, annotate: string -> string)
    requires r.kind == KindNamespace
    ensures AddConditionalWrappers(text, r, annotate) == ""
  {
  }

  /** RBAC manifests of the manager itself (not a helper role, not about
      metrics) are always rendered. */
  lemma EssentialRBACUnchanged(text: string, r: Resource, annotate: string -> string)
    requires IsRBACKind(r.kind)
    requires !Contains(r.name, "admin-role") && !Contains(r.name, "editor-role") && !Contains(r.name, "viewer-role")
    requires !Contains(r.name, "metrics")
    ensures AddConditionalWrappers(text, r, annotate) == text
  {
  }

  /** Only metrics certificates need both cert-manager and metrics enabled;
      every other cert-manager certificate needs cert-manager alone. */
  lemma CertificateCondition(r: Resource)
    requires r.kind == KindCertificate && r.apiVersion == APIVersionCertManager
    ensures Decide(r) == if Contains(r.name, "metrics") then Wrapped(MetricsCertCondition, true) else Wrapped(CertManagerCondition, false)
  {
    if Contains(r.name, "metrics-cert") {
      ContainsPrefixOf(r.name, "metrics", "metrics-cert");
    }
  }

  /** The pass is not idempotent: a wrapped manifest run through it again
      gets a second pair of directives. */
  lemma WrapperNotIdempotent(text: string, r: Resource, annotate: string -> string)
    requires Decide(r).Wrapped?
    ensures |AddConditionalWrappers(AddConditionalWrappers(text, r, annotate), r, annotate)|
            > |AddConditionalWrappers(text, r, annotate)| > |text|
  {
  }
}
