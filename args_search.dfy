/** What the search for the args: list of templateControllerManagerArgs
    returns, and what the args pass does with a text it matched in. */
module ArgsSearch {
  import opened GoStrings
  import opened ControllerManagerArgs

  /** An item line of the args: list: one or more blanks, then a dash. */
  predicate IsArgsItemLine(line: string) {
    0 < IndentWidth(line) < |line| && line[IndentWidth(line)] == '-'
  }

  /** The shape of the search's two groups: the key's indentation is one or
      more blanks, and the items are one or more item lines, each ended by a
      newline. */
  predicate ArgsGroupsShape(m: ArgsMatch) {
    && m.indent != [] && AllBlank(m.indent)
    && m.items != [] && m.items[|m.items| - 1] == '\n'
    && var ls := Lines(m.items[..|m.items| - 1]);
       forall j :: 0 <= j < |ls| ==> IsArgsItemLine(ls[j])
  }

  /** What a match of the search `([ \t]+)args:\n((?:[ \t]+-.*\n)+)`
      guarantees: the text is the prefix, the matched span and the suffix,
      and the groups have the shape the pattern demands. */
  predicate ArgsFound(text: string, m: ArgsMatch) {
    text == m.prefix + m.Matched() + m.suffix && ArgsGroupsShape(m)
  }

  /** The args pass on a matched text: it leaves the text alone exactly when
      there is no manager container or the matched span already mentions
      the args values, and otherwise replaces exactly the matched span by the
      rebuilt block. Afterwards a manager's text always mentions the args
      values. */
  lemma ArgsRewriteSpan(text: string, m: ArgsMatch)
    requires ArgsFound(text, m)
    ensures ArgsSpec(text, Some(m)) == text <==>
      !Contains(text, "name: manager") || Contains(m.Matched(), ArgsValuesPath)
    ensures ArgsSpec(text, Some(m)) != text ==>
      ArgsSpec(text, Some(m)) == m.prefix + RebuildArgsBlock(m.indent, m.items) + m.suffix
    ensures Contains(text, "name: manager") ==> Contains(ArgsSpec(text, Some(m)), ArgsValuesPath)
  {
    ArgsSpliced(text, m);
    ArgsGuardPresent(text, m);
  }
}
