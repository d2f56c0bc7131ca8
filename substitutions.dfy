/** The text substitutions of the templater: the hard-coded namespace, the
    certificate DNS names and issuer, and the ServiceMonitor name. */
module Substitutions {
  import opened GoStrings
  import opened ConditionalWrappers

  const NamespaceTemplate := "{{ .Release.Namespace }}"
  const SystemSuffix := "-system"

  /** The placeholders kustomize leaves in certificate DNS names. */
  const ServicePlaceholder := "SERVICE_NAME.SERVICE_NAMESPACE.svc"
  const ClusterLocal := ".cluster.local"

  /** The metrics service name as a chart helper call, in pieces short enough
      to reason about character by character. */
  const ServiceNameCall := "{{ include \"chart.serviceName\" "
  const SuffixArgument := "(dict \"suffix\" "
  const MetricsServiceSuffix := "\"controller-manager-metrics-service\" "
  const ContextArgument := "\"context\" .) }}"
  const MetricsServiceTemplate := ServiceNameCall + SuffixArgument + MetricsServiceSuffix + ContextArgument
  const NamespaceCall := ".{{ include \"chart.namespaceName\" . }}"
  const MetricsServiceFQDN := MetricsServiceTemplate + NamespaceCall + ".svc"
  const MetricsServiceFQDNCluster := MetricsServiceTemplate + NamespaceCall + ".svc" + ClusterLocal

  const TemplatedIssuer := "{{ include \"chart.name\" . }}-selfsigned-issuer"
  const ChartNamePrefix := "{{ include \"chart.name\" . }}-"

  function HardcodedNamespace(projectName: string): string {
    projectName + SystemSuffix
  }

  function HardcodedMetricsService(projectName: string): string {
    projectName + "-controller-manager-metrics-service"
  }

  function HardcodedIssuer(projectName: string): string {
    projectName + "-selfsigned-issuer"
  }

  predicate IsMetricsName(name: string) {
    Contains(name, "metrics-cert") || Contains(name, "metrics")
  }

  /** substituteCertificateDNSNames: for a metrics certificate the DNS name
      placeholders and the hard-coded metrics service become chart helper
      calls; for every certificate the hard-coded issuer does. The
      "metrics-cert" test adds nothing to the "metrics" test, and the
      cluster-local rewrite never fires, so only three rewrites take effect. */
  function SubstituteCertificateDNSNames(text: string, projectName: string, name: string): (out: string)
    ensures !Contains(name, "metrics") ==> out == ReplaceAll(text, HardcodedIssuer(projectName), TemplatedIssuer)
    ensures Contains(name, "metrics") ==>
      var t1 := ReplaceAll(text, ServicePlaceholder, MetricsServiceFQDN);
      out == ReplaceAll(ReplaceAll(t1, HardcodedMetricsService(projectName), MetricsServiceTemplate),
                        HardcodedIssuer(projectName), TemplatedIssuer)
  {
    MetricsCertIsMetrics(name);
    ClusterPlaceholderReplacementIsNoop(text);
    var t :=
      if IsMetricsName(name) then
        var t1 := ReplaceAll(text, ServicePlaceholder, MetricsServiceFQDN);
        var t2 := ReplaceAll(t1, ServicePlaceholder + ClusterLocal, MetricsServiceFQDNCluster);
        ReplaceAll(t2, HardcodedMetricsService(projectName), MetricsServiceTemplate)
      else text;
    ReplaceAll(t, HardcodedIssuer(projectName), TemplatedIssuer)
  }

  /** A name that contains "metrics-cert" contains "metrics". */
  lemma MetricsCertIsMetrics(name: string)
    ensures IsMetricsName(name) <==> Contains(name, "metrics")
  {
    if Contains(name, "metrics-cert") {
      ContainsPrefixOf(name, "metrics", "metrics-cert");
    }
  }

  /** substituteNamespace: the hard-coded namespace becomes the release
      namespace everywhere (splitting at it and joining with the template),
      then certificates get their DNS names templated. */
  function SubstituteNamespace(text: string, projectName: string, r: Resource): (out: string)
    ensures var joined := JoinWith(SplitOn(text, HardcodedNamespace(projectName)), NamespaceTemplate);
      out == if r.kind == KindCertificate then SubstituteCertificateDNSNames(joined, projectName, r.name) else joined
  {
    ReplaceAllIsSplitJoin(text, HardcodedNamespace(projectName), NamespaceTemplate);
    var t := ReplaceAll(text, HardcodedNamespace(projectName), NamespaceTemplate);
    if r.kind == KindCertificate then SubstituteCertificateDNSNames(t, projectName, r.name) else t
  }

  /** The part of a ServiceMonitor's name after the project prefix, or the
      whole name when it lacks that prefix. */
  function ServiceMonitorSuffix(projectName: string, name: string): string {
    TrimPrefix(name, projectName + "-")
  }

  /** templateServiceMonitorNames. The line rewrite is a regular expression
      (a `name:` line holding exactly the old name, keeping its indentation):
      it is the parameter `renameLine(text, oldName, newName)`. Only a named
      ServiceMonitor is touched, and the new name is the chart name followed
      by what comes after the project prefix. */
  function TemplateServiceMonitorNames(text: string, projectName: string, r: Resource,
                                       renameLine: (string, string, string) -> string): (out: string)
    ensures r.kind != KindServiceMonitor || r.name == [] ==> out == text
    ensures r.kind == KindServiceMonitor && r.name != [] ==>
      var p := projectName + "-";
      out == renameLine(text, r.name, ChartNamePrefix + (if HasPrefix(r.name, p) then r.name[|p|..] else r.name))
  {
    if r.kind != KindServiceMonitor || r.name == [] then text
    else renameLine(text, r.name, ChartNamePrefix + ServiceMonitorSuffix(projectName, r.name))
  }

  // ---------------------------------------------------------------------
  // ReplaceAll facts

  /** Text that cannot start an occurrence of the pattern is copied over
      unchanged. */
  lemma {:induction false} ReplaceAllSkip(a: string, b: string, pat: string, rep: string)
    requires pat != [] && pat[0] !in a
    ensures ReplaceAll(a + b, pat, rep) == a + ReplaceAll(b, pat, rep)
    decreases |a|
  {
    if a == [] {
      assert a + b == b;
    } else {
      var s := a + b;
      var tail := ReplaceAll(b, pat, rep);
      assert s[0] == a[0] && a[0] != pat[0];
      assert !HasPrefix(s, pat);
      assert ReplaceAll(s, pat, rep) == [s[0]] + ReplaceAll(s[1..], pat, rep);
      assert s[1..] == a[1..] + b;
      ReplaceAllSkip(a[1..], b, pat, rep);
      assert a == [a[0]] + a[1..];
      assert [a[0]] + (a[1..] + tail) == a + tail;
    }
  }

  /** A leading occurrence is replaced, and text after it that cannot start
      another occurrence is copied over unchanged. */
  lemma ReplaceAllLeading(pat: string, a: string, rest: string, rep: string)
    requires pat != [] && pat[0] !in a
    ensures ReplaceAll(pat + a + rest, pat, rep) == rep + a + ReplaceAll(rest, pat, rep)
  {
    var s := pat + a + rest;
    assert HasPrefix(s, pat);
    assert s[|pat|..] == a + rest;
    ReplaceAllSkip(a, rest, pat, rep);
  }

  predicate Disjoint(pat: string, rep: string) {
    pat != [] && rep != [] && pat[0] !in rep && rep[0] !in pat
  }

  /** When the replacement's first character is not in the pattern, an
      input that does not start with a string of pattern characters gives an
      output that does not start with it either. */
  lemma {:induction false} ReplaceAllKeepsNonPrefix(t: string, pat: string, rep: string, q: string)
    requires Disjoint(pat, rep)
    requires forall k :: 0 <= k < |q| ==> q[k] in pat
    requires !HasPrefix(t, q)
    ensures !HasPrefix(ReplaceAll(t, pat, rep), q)
    decreases |t|
  {
    var out := ReplaceAll(t, pat, rep);
    assert q != [];
    if HasPrefix(t, pat) {
      assert out[..1] == rep[..1];
      assert q[0] in pat;
      assert q[0] != rep[0];
    } else if t == [] {
    } else {
      var rest := ReplaceAll(t[1..], pat, rep);
      assert out == [t[0]] + rest;
      if q[0] == t[0] {
        if |q| - 1 <= |t| - 1 {
          assert t[..|q|] == [t[0]] + t[1..][..|q| - 1];
        }
        assert !HasPrefix(t[1..], q[1..]);
        forall k | 0 <= k < |q[1..]| ensures q[1..][k] in pat {
          assert q[1..][k] == q[k + 1];
        }
        ReplaceAllKeepsNonPrefix(t[1..], pat, rep, q[1..]);
        if |q| <= |out| {
          assert out[..|q|] == [t[0]] + rest[..|q| - 1];
        }
      }
    }
  }

  /** No occurrence of the pattern starts inside a replacement. */
  lemma {:induction false} NoOccurrenceInReplacementTail(rep: string, i: nat, rest: string, pat: string)
    requires Disjoint(pat, rep) && !Contains(rest, pat) && i <= |rep|
    ensures !Contains(rep[i..] + rest, pat)
    decreases |rep| - i
  {
    if i == |rep| {
      assert rep[i..] + rest == rest;
    } else {
      var s := rep[i..] + rest;
      assert s[0] == rep[i];
      assert rep[i] in rep;
      assert !HasPrefix(s, pat);
      assert s[1..] == rep[i + 1..] + rest;
      NoOccurrenceInReplacementTail(rep, i + 1, rest, pat);
    }
  }

  /** When neither the pattern's first character occurs in the replacement
      nor the replacement's first character in the pattern, no occurrence of
      the pattern survives ReplaceAll. */
  lemma {:induction false} ReplaceAllRemoves(s: string, pat: string, rep: string)
    requires Disjoint(pat, rep)
    ensures !Contains(ReplaceAll(s, pat, rep), pat)
    decreases |s|
  {
    if HasPrefix(s, pat) {
      ReplaceAllRemoves(s[|pat|..], pat, rep);
      NoOccurrenceInReplacementTail(rep, 0, ReplaceAll(s[|pat|..], pat, rep), pat);
      assert rep[0..] == rep;
    } else if s == [] {
      EmptyContains(pat);
    } else {
      var rest := ReplaceAll(s[1..], pat, rep);
      ReplaceAllRemoves(s[1..], pat, rep);
      var out := [s[0]] + rest;
      if s[0] == pat[0] {
        if |pat| <= |s| {
          assert s[..|pat|] == [s[0]] + s[1..][..|pat| - 1];
          assert pat == [pat[0]] + pat[1..];
        }
        assert !HasPrefix(s[1..], pat[1..]);
        forall k | 0 <= k < |pat[1..]| ensures pat[1..][k] in pat {
          assert pat[1..][k] == pat[k + 1];
        }
        ReplaceAllKeepsNonPrefix(s[1..], pat, rep, pat[1..]);
        if |pat| <= |out| {
          assert out[..|pat|] == [s[0]] + rest[..|pat| - 1];
        }
      }
      assert !HasPrefix(out, pat);
      assert out[1..] == rest;
    }
  }

  /** A string without a pattern has no longer string starting with it. */
  lemma {:induction false} NotContainsExtension(s: string, p: string, ext: string)
    requires !Contains(s, p)
    ensures !Contains(s, p + ext)
    decreases |s|
  {
    assert !HasPrefix(s, p);
    if |p + ext| <= |s| {
      assert s[..|p + ext|][..|p|] == s[..|p|];
      assert (p + ext)[..|p|] == p;
    }
    if s != [] {
      NotContainsExtension(s[1..], p, ext);
    }
  }

  // ---------------------------------------------------------------------
  // The certificate DNS names

  lemma NoUpperSInCalls()
    ensures 'S' !in ServiceNameCall && 'S' !in NamespaceCall
  {
  }

  lemma NoUpperSInArguments()
    ensures 'S' !in SuffixArgument && 'S' !in MetricsServiceSuffix && 'S' !in ContextArgument
  {
  }

  lemma PlaceholderDisjoint()
    ensures Disjoint(ServicePlaceholder, MetricsServiceFQDN)
    ensures ServicePlaceholder[0] !in ClusterLocal
  {
    NoUpperSInCalls();
    NoUpperSInArguments();
    var f := MetricsServiceFQDN;
    assert f == ServiceNameCall + SuffixArgument + MetricsServiceSuffix + ContextArgument + NamespaceCall + ".svc";
    assert 'S' !in f;
    assert f[0] == '{';
    assert '{' !in ServicePlaceholder;
  }

  /** The cluster-local placeholder is replaced second, after the shorter
      placeholder it starts with: by then none is left, so that replacement
      changes nothing. */
  lemma ClusterPlaceholderReplacementIsNoop(s: string)
    ensures var t1 := ReplaceAll(s, ServicePlaceholder, MetricsServiceFQDN);
            ReplaceAll(t1, ServicePlaceholder + ClusterLocal, MetricsServiceFQDNCluster) == t1
  {
    var t1 := ReplaceAll(s, ServicePlaceholder, MetricsServiceFQDN);
    PlaceholderDisjoint();
    ReplaceAllRemoves(s, ServicePlaceholder, MetricsServiceFQDN);
    NotContainsExtension(t1, ServicePlaceholder, ClusterLocal);
    ReplaceAllAbsent(t1, ServicePlaceholder + ClusterLocal, MetricsServiceFQDNCluster);
  }

  /** Yet the cluster-local placeholder still becomes the cluster-local
      service name: the shorter replacement leaves its tail in place. */
  lemma ClusterPlaceholderBecomesClusterName(rest: string)
    ensures ReplaceAll(ServicePlaceholder + ClusterLocal + rest, ServicePlaceholder, MetricsServiceFQDN)
            == MetricsServiceFQDNCluster + ReplaceAll(rest, ServicePlaceholder, MetricsServiceFQDN)
  {
    PlaceholderDisjoint();
    ReplaceAllLeading(ServicePlaceholder, ClusterLocal, rest, MetricsServiceFQDN);
    assert MetricsServiceFQDN + ClusterLocal == MetricsServiceFQDNCluster;
  }

  /** After the pass a metrics certificate holds no DNS name placeholder. */
  lemma MetricsCertificateHasNoPlaceholder(text: string, projectName: string, name: string)
    requires IsMetricsName(name)
    ensures var t1 := ReplaceAll(text, ServicePlaceholder, MetricsServiceFQDN);
            !Contains(t1, ServicePlaceholder)
  {
    PlaceholderDisjoint();
    ReplaceAllRemoves(text, ServicePlaceholder, MetricsServiceFQDN);
  }

  /** A manifest that does not mention the hard-coded namespace, and is not
      a certificate, is left unchanged. */
  lemma NamespaceAbsent(text: string, projectName: string, r: Resource)
    requires r.kind != KindCertificate && !Contains(text, HardcodedNamespace(projectName))
    ensures SubstituteNamespace(text, projectName, r) == text
  {
    ReplaceAllAbsent(text, HardcodedNamespace(projectName), NamespaceTemplate);
  }

  // ---------------------------------------------------------------------
  // ServiceMonitor names

  /** The templated name keeps what follows the project prefix: putting the
      prefix back gives the original name. */
  lemma ServiceMonitorSuffixRestores(projectName: string, name: string)
    ensures var suffix := ServiceMonitorSuffix(projectName, name);
            if HasPrefix(name, projectName + "-") then name == projectName + "-" + suffix else suffix == name
  {
  }
}
