/** The round trip: `reinjectPlaceholders` applied to the result of
    `applyRedactions` gives back the input, when the input has no `_`, every
    rule's prefix has the shape `__[A-Z]+_`, the counter starts at zero or
    above, and every match a rule visits is non-empty and lies wholly in
    characters that came from the input. The last condition cannot be
    dropped: a later rule that matches an earlier placeholder breaks the
    round trip (`MatchInsidePlaceholder`), and so does an input with `_`
    that, next to an inserted placeholder, spells that placeholder again
    (`PlaceholderAcrossEdge`). */
module RoundTrip {
  import opened Strings
  import opened Seqs
  import opened Types
  import opened RedactionEngine
  import opened Reinject
  import opened Placeholders
  import opened Cells
  import opened Refill
  import opened SpliceTrace

  /** No two records share a placeholder. */
  predicate Distinct(reds: seq<Redaction>) {
    forall i, j :: 0 <= i < j < |reds| ==> reds[i].placeholder != reds[j].placeholder
  }

  /** Every record's placeholder has the token shape. */
  predicate Tokens(reds: seq<Redaction>) {
    forall k :: 0 <= k < |reds| ==> IsToken(reds[k].placeholder)
  }

  /** A trace that agrees with no record has no placeholder cells, so it
      stands for what it spells. */
  lemma {:induction false} NoRecordsPlain(cells: seq<Cell>)
    requires Agrees(cells, [])
    ensures Orig(cells) == Text(cells)
  {
    forall t | 0 <= t < |cells|
      ensures cells[t].Input?
    {
      assert cells[t] in cells;
    }
    PlainSelf(cells);
  }

  /** With distinct placeholders, every copy of the first record's
      placeholder stands for the first record's original. */
  lemma {:induction false} FirstStandsFor(cells: seq<Cell>, reds: seq<Redaction>)
    requires Agrees(cells, reds) && Distinct(reds) && reds != []
    ensures forall c :: c in cells && c.Mark? && c.p == reds[0].placeholder ==> c.back == reds[0].original
  {
    forall c | c in cells && c.Mark? && c.p == reds[0].placeholder
      ensures c.back == reds[0].original
    {
      var k :| 0 <= k < |reds| && Pairs(reds)[k] == (c.p, c.back);
      assert k == 0;
    }
  }

  /** After the first record is put back, the trace agrees with the rest. */
  lemma {:induction false} FillAgrees(cells: seq<Cell>, reds: seq<Redaction>)
    requires Agrees(cells, reds) && reds != []
    ensures Agrees(Fill(cells, reds[0].placeholder), reds[1..])
  {
    var P := reds[0].placeholder;
    FillMarks(cells, P);
    forall c | c in Fill(cells, P) && c.Mark?
      ensures (c.p, c.back) in Pairs(reds[1..])
    {
      var k :| 0 <= k < |reds| && Pairs(reds)[k] == (c.p, c.back);
      assert k != 0;
      assert Pairs(reds[1..])[k - 1] == (c.p, c.back);
    }
  }

  lemma {:induction false} RecordsTail(reds: seq<Redaction>)
    requires Distinct(reds) && Tokens(reds) && reds != []
    ensures Distinct(reds[1..]) && Tokens(reds[1..])
  {
    assert forall k :: 0 <= k < |reds| - 1 ==> reds[1..][k] == reds[k + 1];
  }

  /** Putting the first record back on the working text is putting it back on
      the trace. */
  lemma {:induction false} ReinjectFirst(cells: seq<Cell>, reds: seq<Redaction>)
    requires Closed(cells) && Agrees(cells, reds) && Distinct(reds) && Tokens(reds) && reds != []
    ensures reds[0].placeholder != []
    ensures ReinjectOne(Text(cells), reds[0]) == Text(Fill(cells, reds[0].placeholder))
  {
    var P := reds[0].placeholder;
    var m: nat :| m < |P| && ShapedAt(P, m);
    FirstStandsFor(cells, reds);
    StartBoundary(cells);
    assert cells[0..] == cells;
    assert Text(cells)[0..] == Text(cells);
    ReplaceIsFill(cells, P, m, reds[0].original, 0);
  }

  /** Putting every record back on the text of a well-formed trace whose
      placeholder cells agree with the records gives what the trace stands
      for. */
  lemma {:induction false} ReinjectTrace(cells: seq<Cell>, reds: seq<Redaction>)
    requires Closed(cells) && Agrees(cells, reds) && Distinct(reds) && Tokens(reds)
    ensures ReinjectEach(Text(cells), reds) == Orig(cells)
    decreases |reds|
  {
    if reds == [] {
      NoRecordsPlain(cells);
    } else {
      var P := reds[0].placeholder;
      var F := Fill(cells, P);
      ReinjectFirst(cells, reds);
      StartBoundary(cells);
      assert cells[0..] == cells;
      FillUnits(cells, 0, P);
      FillAgrees(cells, reds);
      RecordsTail(reds);
      ReinjectTrace(F, reds[1..]);
    }
  }

  /** Records numbered by rules whose prefixes have the token shape, from a
      counter of zero or above, carry placeholders of the token shape. */
  lemma {:induction false} NumberedTokens(reds: seq<Redaction>, o: seq<nat>, rules: seq<RedactionRule>, counter: int)
    requires Numbered(reds, o, rules, counter) && ShapedPrefixes(rules) && counter >= 0
    ensures Tokens(reds)
  {
    forall k | 0 <= k < |reds|
      ensures IsToken(reds[k].placeholder)
    {
      GeneratedPlaceholderIsToken(rules[o[k]].placeholderPrefix, counter + k);
    }
  }

  /** The records of one `applyRedactions` call have distinct placeholders of
      the token shape. */
  lemma {:induction false} RecordsShaped(engine: Engine, input: string, rules: seq<RedactionRule>, startIndex: nat)
    requires ShapedPrefixes(rules)
    ensures var r := ApplyRedactions(engine, input, rules, startIndex).redactions;
            Distinct(r) && Tokens(r)
  {
    RedactionPlaceholdersDistinct(engine, input, rules, startIndex);
    if input != [] {
      RedactionsNumbered(engine, input, rules, startIndex);
      NumberedTokens(ApplyRedactions(engine, input, rules, startIndex).redactions,
                     Owners(engine, input, rules, startIndex), rules, startIndex);
    }
  }

  /** The trace of a non-empty input through the loop over the rules. */
  lemma {:induction false} RedactedTrace(engine: Engine, input: string, rules: seq<RedactionRule>, startIndex: nat)
    returns (f: seq<Cell>)
    requires '_' !in input
    requires ShapedPrefixes(rules)
    requires TraceOk(engine, Inputs(input), rules, startIndex)
    ensures var r := ApplyRules(engine, input, rules, startIndex);
            Text(f) == r.text && Orig(f) == input && Closed(f) && Agrees(f, r.redactions)
  {
    var cells := Inputs(input);
    f := RulesCells(engine, cells, rules, startIndex);
    InputsSelf(input);
    InputsClosed(input);
    InputsAreInput(input);
    RulesText(engine, cells, rules, startIndex);
    RulesOrig(engine, cells, rules, startIndex);
    RulesClosed(engine, cells, rules, startIndex);
    RulesAgrees(engine, cells, rules, startIndex, []);
    assert [] + ApplyRules(engine, input, rules, startIndex).redactions == ApplyRules(engine, input, rules, startIndex).redactions;
  }

  /** The round trip. */
  lemma {:induction false} ReinjectInvertsRedaction(engine: Engine, input: string, rules: seq<RedactionRule>, startIndex: nat)
    requires '_' !in input
    requires ShapedPrefixes(rules)
    requires TraceOk(engine, Inputs(input), rules, startIndex)
    ensures var r := ApplyRedactions(engine, input, rules, startIndex);
            ReinjectPlaceholders(r.text, r.redactions) == input
  {
    if input != [] {
      var r := ApplyRedactions(engine, input, rules, startIndex);
      var f := RedactedTrace(engine, input, rules, startIndex);
      RecordsShaped(engine, input, rules, startIndex);
      ReinjectTrace(f, r.redactions);
      assert f != [];
    }
  }

  /** With a single rule, the matches lie on input characters as soon as
      they are non-empty. */
  lemma {:induction false} OneRuleRoundTrip(engine: Engine, input: string, rule: RedactionRule, startIndex: nat)
    requires '_' !in input
    requires ShapedPrefixes([rule])
    requires forall k :: 0 <= k < |RuleMatches(engine, rule, input)| ==>
      RuleMatches(engine, rule, input)[k].start < RuleMatches(engine, rule, input)[k].end
    ensures var r := ApplyRedactions(engine, input, [rule], startIndex);
            ReinjectPlaceholders(r.text, r.redactions) == input
  {
    OneRuleTrace(engine, input, rule, startIndex);
    ReinjectInvertsRedaction(engine, input, [rule], startIndex);
  }

  lemma {:induction false} OneRuleTrace(engine: Engine, input: string, rule: RedactionRule, startIndex: nat)
    requires forall k :: 0 <= k < |RuleMatches(engine, rule, input)| ==>
      RuleMatches(engine, rule, input)[k].start < RuleMatches(engine, rule, input)[k].end
    ensures TraceOk(engine, Inputs(input), [rule], startIndex)
  {
    var cells := Inputs(input);
    InputsSelf(input);
    InputsAreInput(input);
    var spans := RuleMatches(engine, rule, input);
    assert OnInput(cells, spans);
    assert [rule][1..] == [];
  }

  /** The default rules' prefixes all have the token shape. */
  lemma {:induction false} DefaultPrefixesShaped()
    ensures ShapedPrefixes(DefaultRules)
  {
    forall k | 0 <= k < |DefaultRules|
      ensures ShapedPrefix(DefaultRules[k].placeholderPrefix)
    {
      var p := DefaultRules[k].placeholderPrefix;
      assert forall j :: 2 <= j < |p| - 1 ==> IsUpper(p[j]);
    }
  }

  /** The round trip under the default rules. */
  lemma {:induction false} DefaultRulesRoundTrip(engine: Engine, input: string, startIndex: nat)
    requires '_' !in input
    requires TraceOk(engine, Inputs(input), DefaultRules, startIndex)
    ensures var r := ApplyRedactions(engine, input, DefaultRules, startIndex);
            ReinjectPlaceholders(r.text, r.redactions) == input
  {
    DefaultPrefixesShaped();
    ReinjectInvertsRedaction(engine, input, DefaultRules, startIndex);
  }

  // ---------------------------------------------------------------------------
  // A match inside an earlier placeholder

  /** The occurrences of `p` in `text` from `from` on, leftmost first and
      not overlapping: what a global scan for a pattern without special
      characters visits. */
  function LiteralSpans(p: string, text: string, from: nat): (r: seq<Span>)
    requires p != [] && from <= |text|
    ensures SpansWellFormed(r, |text|) && AllFrom(r, from)
    decreases |text| - from
  {
    if from + |p| > |text| then []
    else if text[from..from + |p|] == p then [Span(from, from + |p|)] + LiteralSpans(p, text, from + |p|)
    else LiteralSpans(p, text, from + 1)
  }

  /** An engine for patterns without special characters. */
  function LiteralMatches(source: string, flags: string, text: string): (r: seq<Span>)
    ensures SpansWellFormed(r, |text|)
  {
    if source == [] then [] else LiteralSpans(source, text, 0)
  }

  const LiteralEngine: Engine := LiteralMatches

  /** Redacts the letter `x`. */
  const LetterRule := RedactionRule("letter", Pattern("x", "g"), "__A_")

  /** Redacts the text `__A_1__`. */
  const TokenRule := RedactionRule("token", Pattern("__A_1__", "g"), "__B_")

  lemma {:induction false} LetterMatches()
    ensures RuleMatches(LiteralEngine, LetterRule, "x") == [Span(0, 1)]
  {
    assert LiteralSpans("x", "x", 1) == [];
    assert LiteralSpans("x", "x", 0) == [Span(0, 1)];
  }

  lemma {:induction false} LetterStep()
    ensures ApplyRule(LiteralEngine, "x", LetterRule, 1) == Redacted("__A_1__", [Redaction("__A_1__", "x", "letter")])
  {
    LetterMatches();
    assert NatToString(1) == "1";
    assert Placeholder("__A_", 1) == "__A_1__";
    var rest := Splice("x", [Span(0, 1)][1..], 1, LetterRule, 2);
    assert rest == Redacted([], []);
    assert "x"[0..0] + "__A_1__" + [] == "__A_1__";
  }

  lemma {:induction false} TokenMatches()
    ensures RuleMatches(LiteralEngine, TokenRule, "__A_1__") == [Span(0, 7)]
  {
    var t := "__A_1__";
    assert LiteralSpans(t, t, 7) == [];
    assert t[0..7] == t;
    assert LiteralSpans(t, t, 0) == [Span(0, 7)];
  }

  lemma {:induction false} TokenStep()
    ensures ApplyRule(LiteralEngine, "__A_1__", TokenRule, 2) == Redacted("__B_2__", [Redaction("__B_2__", "__A_1__", "token")])
  {
    var t := "__A_1__";
    TokenMatches();
    assert NatToString(2) == "2";
    assert Placeholder("__B_", 2) == "__B_2__";
    var rest := Splice(t, [Span(0, 7)][1..], 7, TokenRule, 3);
    assert rest == Redacted([], []);
    assert t[0..0] + "__B_2__" + [] == "__B_2__";
  }

  lemma {:induction false} ReinjectSteps()
    ensures ReplaceAll("__B_2__", "__A_1__", "x") == "__B_2__"
    ensures ReplaceAll("__B_2__", "__B_2__", "__A_1__") == "__A_1__"
  {
    var t := "__B_2__";
    assert t[..7] != "__A_1__" by {
      assert t[2] != "__A_1__"[2];
    }
    assert [t[0]] + t[1..] == t;
    assert t[..7] == t;
    assert ReplaceAll(t[7..], "__B_2__", "__A_1__") == [];
  }

  /** Two rules: the second scans the text the first left, and its counter
      continues from the first rule's records. */
  lemma {:induction false} TwoRules(engine: Engine, input: string, r1: RedactionRule, r2: RedactionRule, startIndex: int)
    requires input != []
    ensures var a := ApplyRule(engine, input, r1, startIndex);
            var b := ApplyRule(engine, a.text, r2, startIndex + |a.redactions|);
            ApplyRedactions(engine, input, [r1, r2], startIndex) == Redacted(b.text, a.redactions + b.redactions)
  {
    var a := ApplyRule(engine, input, r1, startIndex);
    var b := ApplyRule(engine, a.text, r2, startIndex + |a.redactions|);
    assert [r1, r2][1..] == [r2];
    assert [r2][1..] == [];
    assert ApplyRules(engine, b.text, [], startIndex + |a.redactions| + |b.redactions|) == Redacted(b.text, []);
    assert b.redactions + [] == b.redactions;
    assert ApplyRules(engine, a.text, [r2], startIndex + |a.redactions|) == Redacted(b.text, b.redactions);
  }

  lemma {:induction false} ReinjectTwo(text: string, r1: Redaction, r2: Redaction)
    requires text != []
    ensures ReinjectPlaceholders(text, [r1, r2]) == ReinjectOne(ReinjectOne(text, r1), r2)
  {
    assert [r1, r2][1..] == [r2];
    assert [r2][1..] == [];
    var t1 := ReinjectOne(text, r1);
    assert ReinjectEach(t1, [r2]) == ReinjectEach(ReinjectOne(t1, r2), []);
  }

  lemma {:induction false} LetterThenToken()
    ensures ApplyRedactions(LiteralEngine, "x", [LetterRule, TokenRule], 1)
         == Redacted("__B_2__", [Redaction("__A_1__", "x", "letter"), Redaction("__B_2__", "__A_1__", "token")])
  {
    LetterStep();
    TokenStep();
    TwoRules(LiteralEngine, "x", LetterRule, TokenRule, 1);
  }

  /** A first rule redacts `x`; a second rule's pattern matches the first
      rule's placeholder `__A_1__` as a whole. The input has no `_`, both
      prefixes have the token shape and the counter starts at 1, yet
      reinjection does not give back `x`: the first record is applied while
      its placeholder is still hidden inside the second one, and applying the
      second record afterwards leaves the first placeholder in the text. */
  lemma {:induction false} MatchInsidePlaceholder()
    ensures var r := ApplyRedactions(LiteralEngine, "x", [LetterRule, TokenRule], 1);
            && r.text == "__B_2__"
            && r.redactions == [Redaction("__A_1__", "x", "letter"), Redaction("__B_2__", "__A_1__", "token")]
            && ReinjectPlaceholders(r.text, r.redactions) == "__A_1__"
  {
    LetterThenToken();
    ReinjectSteps();
    ReinjectTwo("__B_2__", Redaction("__A_1__", "x", "letter"), Redaction("__B_2__", "__A_1__", "token"));
  }

  // ---------------------------------------------------------------------------
  // A placeholder formed across the edge of the input

  lemma {:induction false} EdgeMatches()
    ensures RuleMatches(LiteralEngine, LetterRule, "__A_1x") == [Span(5, 6)]
  {
    var t := "__A_1x";
    assert LiteralSpans("x", t, 6) == [];
    assert LiteralSpans("x", t, 5) == [Span(5, 6)];
    assert LiteralSpans("x", t, 4) == LiteralSpans("x", t, 5) by { assert t[4..5] == "1"; }
    assert LiteralSpans("x", t, 3) == LiteralSpans("x", t, 4) by { assert t[3..4] == "_"; }
    assert LiteralSpans("x", t, 2) == LiteralSpans("x", t, 3) by { assert t[2..3] == "A"; }
    assert LiteralSpans("x", t, 1) == LiteralSpans("x", t, 2) by { assert t[1..2] == "_"; }
    assert LiteralSpans("x", t, 0) == LiteralSpans("x", t, 1) by { assert t[0..1] == "_"; }
  }

  /** A rule with a single match replaces just that span. */
  lemma {:induction false} OneMatch(t: string, m: Span, rule: RedactionRule, counter: int)
    requires m.start <= m.end <= |t|
    ensures Splice(t, [m], 0, rule, counter)
         == Redacted(t[..m.start] + Placeholder(rule.placeholderPrefix, counter) + t[m.end..],
                     [RedactionOf(rule, counter, t[m.start..m.end])])
  {
    assert [m][1..] == [];
    var rest := Splice(t, [], m.end, rule, counter + 1);
    assert rest == Redacted(t[m.end..], []);
  }

  lemma {:induction false} EdgeRule()
    ensures ApplyRule(LiteralEngine, "__A_1x", LetterRule, 1)
         == Redacted("__A_1__A_1__", [Redaction("__A_1__", "x", "letter")])
  {
    var t := "__A_1x";
    EdgeMatches();
    OneMatch(t, Span(5, 6), LetterRule, 1);
    FirstLetterPlaceholder();
    assert t[..5] == "__A_1" && t[5..6] == "x" && t[6..] == [];
    EdgeText();
  }

  lemma {:induction false} FirstLetterPlaceholder()
    ensures Placeholder("__A_", 1) == "__A_1__"
  {
    assert NatToString(1) == "1";
  }

  lemma {:induction false} EdgeText()
    ensures "__A_1" + "__A_1__" + [] == "__A_1__A_1__"
  {
  }

  /** One rule: `applyRedactions` on a non-empty input is that rule's
      replacement. */
  lemma {:induction false} OneRule(engine: Engine, input: string, rule: RedactionRule, startIndex: int)
    requires input != []
    ensures var a := ApplyRule(engine, input, rule, startIndex);
            ApplyRedactions(engine, input, [rule], startIndex) == Redacted(a.text, a.redactions + [])
  {
    var a := ApplyRule(engine, input, rule, startIndex);
    var b := ApplyRules(engine, a.text, [rule][1..], startIndex + |a.redactions|);
    assert [rule][1..] == [];
    assert b == Redacted(a.text, []);
    assert ApplyRules(engine, input, [rule], startIndex) == Redacted(b.text, a.redactions + b.redactions);
  }

  lemma {:induction false} EdgeStep()
    ensures ApplyRedactions(LiteralEngine, "__A_1x", [LetterRule], 1)
         == Redacted("__A_1__A_1__", [Redaction("__A_1__", "x", "letter")])
  {
    EdgeRule();
    OneRule(LiteralEngine, "__A_1x", LetterRule, 1);
    assert [Redaction("__A_1__", "x", "letter")] + [] == [Redaction("__A_1__", "x", "letter")];
  }

  lemma {:induction false} EdgeReinject()
    ensures ReinjectPlaceholders("__A_1__A_1__", [Redaction("__A_1__", "x", "letter")]) == "xA_1__"
  {
    var t := "__A_1__A_1__";
    assert t[..7] == "__A_1__";
    assert t[7..] == "A_1__";
    assert ReplaceAll(t, "__A_1__", "x") == "x" + "A_1__";
    assert [Redaction("__A_1__", "x", "letter")][1..] == [];
  }

  /** An input with `_` but no placeholder in it: `__A_1x` with `x`
      redacted as `__A_1__` reads `__A_1__A_1__`, whose leftmost occurrence
      of the placeholder starts in the input's own characters, so reinjection
      restores the wrong part and gives `xA_1__`. */
  lemma {:induction false} PlaceholderAcrossEdge()
    ensures !Occurs("__A_1x", "__A_1__")
    ensures var r := ApplyRedactions(LiteralEngine, "__A_1x", [LetterRule], 1);
            && r.text == "__A_1__A_1__"
            && ReinjectPlaceholders(r.text, r.redactions) == "xA_1__"
  {
    EdgeStep();
    EdgeReinject();
  }
}
