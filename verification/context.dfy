/** `buildAiContext` (`src/domCollector.ts`): turning the collected elements,
    and optionally the unlabelled text, into fields, raw text and redaction
    records, with one placeholder counter threaded through every redaction. */
module Context {
  import opened Wrappers
  import opened Strings
  import opened Seqs
  import opened Types
  import opened RedactionEngine
  import opened Dom
  import opened Traversal

  // ---------------------------------------------------------------------------
  // selectRules

  /** The available rules whose type is requested, in their original order. */
  function RulesOfKinds(requested: seq<string>, available: seq<RedactionRule>): seq<RedactionRule>
    decreases |available|
  {
    if available == [] then []
    else (if available[0].kind in requested then [available[0]] else []) + RulesOfKinds(requested, available[1..])
  }

  /** The filter keeps exactly the rules of a requested type. */
  lemma {:induction false} RulesOfKindsMembers(requested: seq<string>, available: seq<RedactionRule>)
    ensures forall x :: x in RulesOfKinds(requested, available) <==> x in available && x.kind in requested
    decreases |available|
  {
    if available != [] {
      RulesOfKindsMembers(requested, available[1..]);
      assert forall x :: x in available <==> x == available[0] || x in available[1..];
    }
  }

  /** The filter keeps the rules' relative order: it distributes over
      concatenation. */
  lemma {:induction false} RulesOfKindsAppend(requested: seq<string>, a: seq<RedactionRule>, b: seq<RedactionRule>)
    ensures RulesOfKinds(requested, a + b) == RulesOfKinds(requested, a) + RulesOfKinds(requested, b)
    decreases |a|
  {
    if a == [] {
      AppendEmpty(b);
    } else {
      TailAppend(a, b);
      RulesOfKindsAppend(requested, a[1..], b);
      AppendAssoc(if a[0].kind in requested then [a[0]] else [], RulesOfKinds(requested, a[1..]), RulesOfKinds(requested, b));
    }
  }

  /** `selectRules(requested, available)`: all rules when nothing is requested
      or nothing requested is available, otherwise the requested ones. */
  function SelectRules(requested: seq<string>, available: seq<RedactionRule>): (r: seq<RedactionRule>)
    ensures forall x :: x in r ==> x in available
    ensures requested == [] ==> r == available
    ensures (forall x :: x in available ==> x.kind !in requested) ==> r == available
    ensures (exists x :: x in available && x.kind in requested) ==>
      && (forall x :: x in r <==> x in available && x.kind in requested)
      && r == RulesOfKinds(requested, available)
  {
    RulesOfKindsMembers(requested, available);
    if requested == [] then available
    else
      var matched := RulesOfKinds(requested, available);
      if matched != [] then
        assert matched[0] in matched;
        matched
      else
        available
  }

  // ---------------------------------------------------------------------------
  // appendField

  /** `appendField(fields, label, value)`: nothing without a label; otherwise a
      present, non-empty field gets `"\n" + value` appended and any other
      field is set to `value`. */
  function AppendField(fields: map<string, string>, lbl: Option<string>, value: string): (r: map<string, string>)
    ensures lbl.None? || lbl.value == [] ==> r == fields
    ensures lbl.Some? && lbl.value != [] ==>
      && r.Keys == fields.Keys + {lbl.value}
      && (forall k :: k in fields && k != lbl.value ==> r[k] == fields[k])
      && EndsWith(r[lbl.value], value)
  {
    if lbl.None? || lbl.value == [] then fields
    else
      var l := lbl.value;
      if l in fields && fields[l] != [] then fields[l := fields[l] + "\n" + value]
      else fields[l := value]
  }

  /** Appending values in turn. */
  function AppendAll(fields: map<string, string>, lbl: Option<string>, values: seq<string>): (r: map<string, string>)
    ensures fields.Keys <= r.Keys
    ensures lbl.Some? && lbl.value != [] && values != [] ==> lbl.value in r
    decreases |values|
  {
    if values == [] then fields else AppendAll(AppendField(fields, lbl, values[0]), lbl, values[1..])
  }

  /** Starting from a field that is absent or empty, appending non-empty values
      leaves the field holding them one per line. */
  lemma {:induction false} AppendAllLines(fields: map<string, string>, l: string, values: seq<string>, before: seq<string>)
    requires l != []
    requires before != [] ==> l in fields && fields[l] == Join(before, "\n")
    requires before == [] ==> l !in fields || fields[l] == []
    requires forall k :: 0 <= k < |before| ==> before[k] != []
    requires forall k :: 0 <= k < |values| ==> values[k] != []
    ensures values != [] || before != [] ==> AppendAll(fields, Some(l), values)[l] == Join(before + values, "\n")
    decreases |values|
  {
    if values == [] {
      AppendEmpty(before);
    } else {
      var v := values[0];
      var f := AppendField(fields, Some(l), v);
      if before == [] {
        assert f[l] == v;
        assert Join([v], "\n") == v;
      } else {
        JoinStartsWith(before, "\n");
        JoinSnoc(before, v, "\n");
      }
      assert forall k :: 0 <= k < |before + [v]| ==> (before + [v])[k] != [];
      AppendAllLines(f, l, values[1..], before + [v]);
      AppendAssoc(before, [v], values[1..]);
      TailAppend(values, []);
      assert [v] + values[1..] == values;
    }
  }

  // ---------------------------------------------------------------------------
  // The element loop

  /** The label of an element: `getAttribute("data-ai-label")?.trim() || null`. */
  function Label(e: Element): (l: Option<string>)
    ensures l.Some? ==> l.value != []
  {
    match e.aiLabel
    case None => None
    case Some(v) => if Trim(v) == [] then None else Some(Trim(v))
  }

  /** The state the loop of `buildAiContext` builds up. */
  datatype Acc = Acc(fields: map<string, string>, rawParts: seq<string>, redactions: seq<Redaction>, counter: int)

  /** The requested types of a `redact:` directive:
      `directive.replace("redact:", "").split(/\s+/).map(trim).filter(Boolean)`.
      The directive starts with `redact:`, so the first occurrence replaced is
      that prefix. */
  function RequestedKinds(directive: string): (r: seq<string>)
    requires StartsWith(directive, "redact:")
    ensures forall k :: 0 <= k < |r| ==> r[k] != [] && NoWhitespace(r[k])
  {
    Words(directive[7..])
  }

  /** What the loop does with one element. */
  datatype Action =
    | Skip
    | Include(lbl: Option<string>, text: string)
    | RedactKinds(kinds: seq<string>, lbl: Option<string>, text: string)

  /** The branches of the loop body. Blank or excluded directives and blank
      text are skipped; `include` takes the trimmed text; `redact:` takes the
      trimmed text and the requested types; any other directive is skipped. */
  function Classify(el: Element): (a: Action)
    ensures !a.Skip? ==> a.text == Trim(el.text) && a.text != [] && a.lbl == Label(el) && !IsExcluded(el)
  {
    var directive := Directive(el);
    if directive.None? || directive.value == [] || IsExcluded(el) then Skip
    else
      var text := Trim(el.text);
      if text == [] then Skip
      else if directive.value == "include" then Include(Label(el), text)
      else if StartsWith(directive.value, "redact:") then RedactKinds(RequestedKinds(directive.value), Label(el), text)
      else Skip
  }

  /** An excluded element, one whose trimmed directive is `exclude`, and one
      with blank text are skipped. */
  lemma {:induction false} ClassifySkips(el: Element)
    requires IsExcluded(el) || Prunes(el) || Trim(el.text) == []
    ensures Classify(el) == Skip
  {
    if Prunes(el) && !IsExcluded(el) && Trim(el.text) != [] {
      var d := Directive(el).value;
      assert d == "exclude";
      assert d[0] == 'e' && d != "include";
      assert !StartsWith(d, "redact:") by {
        assert "redact:"[0] == 'r';
      }
    }
  }

  /** One element of the loop: `include` adds the text to its field and to the
      raw parts; `redact:` adds the text redacted with the selected rules, its
      records, and their count to the counter. An element only ever adds:
      records and parts are extended, at most one part per element, and the
      counter advances by the number of records added. */
  function Step(engine: Engine, rules: seq<RedactionRule>, acc: Acc, el: Element): (r: Acc)
    ensures acc.redactions <= r.redactions && acc.rawParts <= r.rawParts
    ensures |r.rawParts| <= |acc.rawParts| + 1
    ensures r.counter - |r.redactions| == acc.counter - |acc.redactions|
  {
    match Classify(el)
    case Skip => acc
    case Include(lbl, text) =>
      acc.(fields := AppendField(acc.fields, lbl, text), rawParts := acc.rawParts + [text])
    case RedactKinds(kinds, lbl, text) =>
      var res := ApplyRedactions(engine, text, SelectRules(kinds, rules), acc.counter);
      Acc(AppendField(acc.fields, lbl, res.text), acc.rawParts + [res.text],
          acc.redactions + res.redactions, acc.counter + |res.redactions|)
  }

  /** Skipped elements contribute nothing. */
  lemma {:induction false} StepSkips(engine: Engine, rules: seq<RedactionRule>, acc: Acc, el: Element)
    requires IsExcluded(el) || Prunes(el) || Trim(el.text) == []
    ensures Step(engine, rules, acc, el) == acc
  {
    ClassifySkips(el);
  }

  /** An `include` element with non-blank text contributes that text, verbatim,
      as a raw part and to its labelled field, and no records. */
  lemma {:induction false} StepInclude(engine: Engine, rules: seq<RedactionRule>, acc: Acc, el: Element)
    requires Directive(el) == Some("include") && Trim(el.text) != []
    ensures var r := Step(engine, rules, acc, el);
            && r.rawParts == acc.rawParts + [Trim(el.text)]
            && r.fields == AppendField(acc.fields, Label(el), Trim(el.text))
            && r.redactions == acc.redactions && r.counter == acc.counter
  {
    assert !IsExcluded(el) by {
      if IsExcluded(el) {
        ExcludedHasDataAi(el);
      }
    }
  }

  /** An `include` directive with non-blank text is included: its trimmed
      text, under its label. */
  lemma {:induction false} ClassifyInclude(el: Element)
    requires Directive(el) == Some("include") && Trim(el.text) != []
    ensures Classify(el) == Include(Label(el), Trim(el.text))
  {
    assert !IsExcluded(el) by {
      if IsExcluded(el) {
        ExcludedHasDataAi(el);
      }
    }
  }

  /** A `redact:` directive with non-blank text is redacted: its trimmed
      text, under its label, with the words after `redact:` as the requested
      types. */
  lemma {:induction false} ClassifyRedact(el: Element, d: string)
    requires Directive(el) == Some(d) && StartsWith(d, "redact:") && Trim(el.text) != []
    ensures Classify(el) == RedactKinds(Words(d[7..]), Label(el), Trim(el.text))
  {
    assert d[..7] == "redact:";
    assert d[0] == d[..7][0] == 'r';
    assert "include"[0] == 'i';
    assert !IsExcluded(el) by {
      if IsExcluded(el) {
        ExcludedHasDataAi(el);
      }
    }
    assert d != "include";
  }

  /** Any other non-blank directive falls through the loop body: the element
      is skipped and contributes nothing. */
  lemma {:induction false} OtherDirectiveSkipped(engine: Engine, rules: seq<RedactionRule>, acc: Acc, el: Element, d: string)
    requires Directive(el) == Some(d) && d != [] && d != "include" && !StartsWith(d, "redact:")
    ensures Classify(el) == Skip
    ensures Step(engine, rules, acc, el) == acc
  {
  }

  /** A `redact:` element with non-blank text contributes its text redacted
      with the rules selected by the requested types, starting at the running
      counter: the redacted text as one raw part and in its labelled field, the
      records appended, and the counter advanced past them. */
  lemma {:induction false} StepRedact(engine: Engine, rules: seq<RedactionRule>, acc: Acc, el: Element, d: string)
    requires Directive(el) == Some(d) && StartsWith(d, "redact:") && Trim(el.text) != []
    ensures var res := ApplyRedactions(engine, Trim(el.text), SelectRules(Words(d[7..]), rules), acc.counter);
            var r := Step(engine, rules, acc, el);
            && r.rawParts == acc.rawParts + [res.text]
            && r.fields == AppendField(acc.fields, Label(el), res.text)
            && r.redactions == acc.redactions + res.redactions
            && r.counter == acc.counter + |res.redactions|
  {
    ClassifyRedact(el, d);
  }

  /** When some rule of a requested type is available, every record a
      `redact:` element adds has one of the requested types. */
  /** Redacting with the rules selected for `kinds` produces records of those
      kinds only, once some rule in force has one of them. */
  lemma {:induction false} SelectedRecordsRequested(engine: Engine, text: string, kinds: seq<string>, rules: seq<RedactionRule>, counter: int)
    requires text != []
    requires exists x :: x in rules && x.kind in kinds
    ensures var reds := ApplyRedactions(engine, text, SelectRules(kinds, rules), counter).redactions;
            forall k :: 0 <= k < |reds| ==> reds[k].kind in kinds
  {
    var selected := SelectRules(kinds, rules);
    var reds := ApplyRedactions(engine, text, selected, counter).redactions;
    RedactionsNumbered(engine, text, selected, counter);
    var o := Owners(engine, text, selected, counter);
    forall k | 0 <= k < |reds|
      ensures reds[k].kind in kinds
    {
      assert selected[o[k]] in selected;
    }
  }

  lemma {:induction false} RedactRecordsRequested(engine: Engine, rules: seq<RedactionRule>, acc: Acc, el: Element, d: string)
    requires Directive(el) == Some(d) && StartsWith(d, "redact:") && Trim(el.text) != []
    requires exists x :: x in rules && x.kind in Words(d[7..])
    ensures var r := Step(engine, rules, acc, el);
            && acc.redactions <= r.redactions
            && forall i :: |acc.redactions| <= i < |r.redactions| ==> r.redactions[i].kind in Words(d[7..])
  {
    var kinds := Words(d[7..]);
    var res := ApplyRedactions(engine, Trim(el.text), SelectRules(kinds, rules), acc.counter);
    StepRedact(engine, rules, acc, el, d);
    SelectedRecordsRequested(engine, Trim(el.text), kinds, rules, acc.counter);
    AppendedKinds(acc.redactions, res.redactions, kinds);
  }

  /** Records appended after `a` keep `a` as a prefix and bring their kinds. */
  lemma {:induction false} AppendedKinds(a: seq<Redaction>, b: seq<Redaction>, kinds: seq<string>)
    requires forall k :: 0 <= k < |b| ==> b[k].kind in kinds
    ensures a <= a + b
    ensures forall i :: |a| <= i < |a + b| ==> (a + b)[i].kind in kinds
  {
    forall i | |a| <= i < |a + b|
      ensures (a + b)[i].kind in kinds
    {
      assert (a + b)[i] == b[i - |a|];
    }
  }

  /** The loop over the collected elements, in order. */
  function Walk(engine: Engine, rules: seq<RedactionRule>, acc: Acc, els: seq<Element>): (r: Acc)
    ensures acc.redactions <= r.redactions && acc.rawParts <= r.rawParts
    ensures r.counter - |r.redactions| == acc.counter - |acc.redactions|
    decreases |els|
  {
    if els == [] then acc
    else Walk(engine, rules, Step(engine, rules, acc, els[0]), els[1..])
  }

  /** The fallback pass: the gathered parts joined by newlines and trimmed,
      redacted with the full rule set, added to the raw text only. */
  function Fallback(engine: Engine, rules: seq<RedactionRule>, acc: Acc, parts: seq<string>): (r: Acc)
    ensures r.fields == acc.fields
    ensures acc.redactions <= r.redactions && acc.rawParts <= r.rawParts
    ensures r.counter - |r.redactions| == acc.counter - |acc.redactions|
  {
    if parts == [] then acc
    else
      var text := Trim(Join(parts, "\n"));
      if text == [] then acc
      else
        var res := ApplyRedactions(engine, text, rules, acc.counter);
        acc.(rawParts := acc.rawParts + [res.text], redactions := acc.redactions + res.redactions,
             counter := acc.counter + |res.redactions|)
  }

  // ---------------------------------------------------------------------------
  // buildAiContext

  /** The rule set in force: the supplied rules replace the defaults. */
  function Rules(options: BuildAiContextOptions): seq<RedactionRule> {
    options.redactionRules.GetOr(DefaultRules)
  }

  /** `labeledOnly`, true unless supplied. */
  function LabeledOnly(options: BuildAiContextOptions): bool {
    options.labeledOnly.GetOr(true)
  }

  /** The loop state after the elements, and after the fallback pass when it
      runs. */
  function Assemble(engine: Engine, root: Element, outer: seq<Element>, options: BuildAiContextOptions): Acc {
    var rules := Rules(options);
    var acc := Walk(engine, rules, Acc(map[], [], [], 1), Bfs([root]));
    if !LabeledOnly(options) then Fallback(engine, rules, acc, CollectFallbackText(root, outer)) else acc
  }

  /** `buildAiContext(root, options)` for a resolved `root` whose ancestors
      above it are `outer`: fails exactly when a rule in force is not global,
      naming the first such rule's type. */
  function BuildAiContext(engine: Engine, root: Element, outer: seq<Element>, options: BuildAiContextOptions): (r: Result<AiContext, ConfigurationError>)
    ensures r.Success? <==> forall i :: 0 <= i < |Rules(options)| ==> Rules(options)[i].pattern.Global()
    ensures r.Failure? ==> r.error == ValidateRules(Rules(options)).error
  {
    var v := ValidateRules(Rules(options));
    if v.Failure? then Failure(v.error)
    else
      var acc := Assemble(engine, root, outer, options);
      Success(AiContext(acc.fields, Join(acc.rawParts, "\n\n"), acc.redactions))
  }

  // ---------------------------------------------------------------------------
  // Properties

  /** The `region` hint changes nothing. */
  lemma {:induction false} RegionIgnored(engine: Engine, root: Element, outer: seq<Element>, options: BuildAiContextOptions, region: Option<Region>)
    ensures BuildAiContext(engine, root, outer, options) == BuildAiContext(engine, root, outer, options.(region := region))
  {
  }

  /** Leaving `labeledOnly` out is the same as setting it to true. */
  lemma {:induction false} LabeledOnlyDefault(engine: Engine, root: Element, outer: seq<Element>, options: BuildAiContextOptions)
    requires options.labeledOnly.None?
    ensures BuildAiContext(engine, root, outer, options) == BuildAiContext(engine, root, outer, options.(labeledOnly := Some(true)))
  {
  }

  /** The fallback pass adds to the raw text and the records only: the fields
      are the same with and without it, and the records without it are a
      prefix of those with it. With `labeledOnly` the raw text is the element
      parts alone. */
  lemma {:induction false} FallbackOnlyInRawText(engine: Engine, root: Element, outer: seq<Element>, options: BuildAiContextOptions)
    ensures var on := BuildAiContext(engine, root, outer, options.(labeledOnly := Some(true)));
            var off := BuildAiContext(engine, root, outer, options.(labeledOnly := Some(false)));
            && (on.Success? <==> off.Success?)
            && (on.Success? ==> on.value.fields == off.value.fields && on.value.redactions <= off.value.redactions)
            && (on.Success? ==>
                  on.value.rawText == Join(Walk(engine, Rules(options), Acc(map[], [], [], 1), Bfs([root])).rawParts, "\n\n"))
  {
  }

  /** With `labeledOnly` false, the gathered fallback parts are joined by
      newlines and trimmed; when that text is not blank it is redacted with
      the whole rule set in force, not a selection, starting at the counter
      the elements left, and it becomes the last raw part. Its records follow
      the elements' records, and the fields are the elements' fields. */
  lemma {:induction false} FallbackRedactsWithAllRules(engine: Engine, root: Element, outer: seq<Element>, options: BuildAiContextOptions)
    requires forall i :: 0 <= i < |Rules(options)| ==> Rules(options)[i].pattern.Global()
    ensures var acc := Walk(engine, Rules(options), Acc(map[], [], [], 1), Bfs([root]));
            var text := Trim(Join(CollectFallbackText(root, outer), "\n"));
            var res := ApplyRedactions(engine, text, Rules(options), acc.counter);
            var off := BuildAiContext(engine, root, outer, options.(labeledOnly := Some(false)));
            && (text != [] ==>
                  off == Success(AiContext(acc.fields, Join(acc.rawParts + [res.text], "\n\n"), acc.redactions + res.redactions)))
            && (text == [] ==> off == Success(AiContext(acc.fields, Join(acc.rawParts, "\n\n"), acc.redactions)))
  {
    var o := options.(labeledOnly := Some(false));
    var rules := Rules(options);
    var acc := Walk(engine, rules, Acc(map[], [], [], 1), Bfs([root]));
    var parts := CollectFallbackText(root, outer);
    assert Rules(o) == rules && !LabeledOnly(o);
    assert Assemble(engine, root, outer, o) == Fallback(engine, rules, acc, parts);
    FallbackPart(engine, rules, acc, parts);
  }

  /** The fallback pass adds the redacted, trimmed, newline-joined parts as
      the last raw part, or nothing when that text is blank. */
  lemma {:induction false} FallbackPart(engine: Engine, rules: seq<RedactionRule>, acc: Acc, parts: seq<string>)
    ensures var text := Trim(Join(parts, "\n"));
            var res := ApplyRedactions(engine, text, rules, acc.counter);
            var added := acc.(rawParts := acc.rawParts + [res.text], redactions := acc.redactions + res.redactions,
                              counter := acc.counter + |res.redactions|);
            && (text != [] ==> Fallback(engine, rules, acc, parts) == added)
            && (text == [] ==> Fallback(engine, rules, acc, parts) == acc)
  {
    if parts == [] {
      assert Join(parts, "\n") == [];
      TrimNoWhitespace([]);
    }
  }

  /** A record carries counter `n` and the prefix and type of one of `rules`. */
  ghost predicate Carries(red: Redaction, rules: seq<RedactionRule>, n: int) {
    exists rule :: rule in rules && red.placeholder == Placeholder(rule.placeholderPrefix, n) && red.kind == rule.kind
  }

  /** The records so far are numbered 1, 2, ... in order, by rules in force,
      and the counter is one past the last. */
  ghost predicate Consecutive(acc: Acc, rules: seq<RedactionRule>) {
    && acc.counter == |acc.redactions| + 1
    && forall i :: 0 <= i < |acc.redactions| ==> Carries(acc.redactions[i], rules, i + 1)
  }

  /** One `applyRedactions` call appended at the counter keeps the numbering. */
  lemma {:induction false} AppendRedactionsConsecutive(engine: Engine, acc: Acc, text: string, selected: seq<RedactionRule>, rules: seq<RedactionRule>)
    requires Consecutive(acc, rules) && text != []
    requires forall x :: x in selected ==> x in rules
    ensures var res := ApplyRedactions(engine, text, selected, acc.counter);
            Consecutive(Acc(acc.fields, acc.rawParts, acc.redactions + res.redactions, acc.counter + |res.redactions|), rules)
  {
    var res := ApplyRedactions(engine, text, selected, acc.counter);
    var o := Owners(engine, text, selected, acc.counter);
    RedactionsNumbered(engine, text, selected, acc.counter);
    var all := acc.redactions + res.redactions;
    forall i | 0 <= i < |all|
      ensures Carries(all[i], rules, i + 1)
    {
      if i < |acc.redactions| {
        assert all[i] == acc.redactions[i];
      } else {
        var k := i - |acc.redactions|;
        assert all[i] == res.redactions[k];
        var rule := selected[o[k]];
        assert rule in rules;
        assert all[i].placeholder == Placeholder(rule.placeholderPrefix, i + 1);
      }
    }
  }

  lemma {:induction false} StepConsecutive(engine: Engine, rules: seq<RedactionRule>, acc: Acc, el: Element)
    requires Consecutive(acc, rules)
    ensures Consecutive(Step(engine, rules, acc, el), rules)
  {
    match Classify(el)
    case RedactKinds(kinds, _, text) =>
      AppendRedactionsConsecutive(engine, acc, text, SelectRules(kinds, rules), rules);
    case _ =>
  }

  lemma {:induction false} WalkConsecutive(engine: Engine, rules: seq<RedactionRule>, acc: Acc, els: seq<Element>)
    requires Consecutive(acc, rules)
    ensures Consecutive(Walk(engine, rules, acc, els), rules)
    decreases |els|
  {
    if els != [] {
      StepConsecutive(engine, rules, acc, els[0]);
      WalkConsecutive(engine, rules, Step(engine, rules, acc, els[0]), els[1..]);
    }
  }

  /** Placeholders in the final records carry the counters 1, 2, ..., n in
      the order the records were produced, each with the prefix and type of a
      rule in force. */
  lemma {:induction false} ContextNumbered(engine: Engine, root: Element, outer: seq<Element>, options: BuildAiContextOptions)
    ensures var r := BuildAiContext(engine, root, outer, options);
            r.Success? ==> forall i :: 0 <= i < |r.value.redactions| ==> Carries(r.value.redactions[i], Rules(options), i + 1)
  {
    var rules := Rules(options);
    var start := Acc(map[], [], [], 1);
    WalkConsecutive(engine, rules, start, Bfs([root]));
    var acc := Walk(engine, rules, start, Bfs([root]));
    if !LabeledOnly(options) {
      var parts := CollectFallbackText(root, outer);
      if parts != [] && Trim(Join(parts, "\n")) != [] {
        AppendRedactionsConsecutive(engine, acc, Trim(Join(parts, "\n")), rules, rules);
      }
    }
  }

  /** An empty supplied rule list replaces the defaults rather than extending
      them: nothing is redacted. */
  lemma {:induction false} NoRulesNoRedactions(engine: Engine, root: Element, outer: seq<Element>, options: BuildAiContextOptions)
    requires options.redactionRules == Some([])
    ensures BuildAiContext(engine, root, outer, options).Success?
    ensures BuildAiContext(engine, root, outer, options).value.redactions == []
  {
    var start := Acc(map[], [], [], 1);
    WalkNoRules(engine, start, Bfs([root]));
  }

  lemma {:induction false} WalkNoRules(engine: Engine, acc: Acc, els: seq<Element>)
    requires acc.redactions == []
    ensures Walk(engine, [], acc, els).redactions == []
    decreases |els|
  {
    if els != [] {
      match Classify(els[0]) {
        case RedactKinds(kinds, _, text) =>
          assert SelectRules(kinds, []) == [];
        case _ =>
      }
      WalkNoRules(engine, Step(engine, [], acc, els[0]), els[1..]);
    }
  }

  /** A root whose trimmed directive is `exclude` yields an empty context, with
      or without the fallback pass. */
  lemma {:induction false} ExcludedRootEmpty(engine: Engine, root: Element, outer: seq<Element>, options: BuildAiContextOptions)
    requires Prunes(root)
    requires forall i :: 0 <= i < |Rules(options)| ==> Rules(options)[i].pattern.Global()
    ensures BuildAiContext(engine, root, outer, options) == Success(AiContext(map[], "", []))
  {
    ExcludedRootCollectsNothing(root);
    assert HasDataAi(root);
    assert InLabeledSubtree([root] + outer);
    LabeledRootNoFallback(root, outer);
  }
}
