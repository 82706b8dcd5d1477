/** The redaction engine of `src/redaction.ts`: rule validation and the
    sequential, counter-threading application of rules to a text. */
module RedactionEngine {
  import opened Wrappers
  import opened Strings
  import opened Types

  /** `validateRedactionRules`: rejects the first rule, in list order, whose
      pattern lacks the global flag. */
  function ValidateRules(rules: seq<RedactionRule>): (r: Result<(), ConfigurationError>)
    ensures r.Success? <==> forall i :: 0 <= i < |rules| ==> rules[i].pattern.Global()
    ensures r.Failure? ==>
      exists i :: && 0 <= i < |rules| && !rules[i].pattern.Global()
                  && r.error == NotGlobal(rules[i].kind)
                  && (forall j :: 0 <= j < i ==> rules[j].pattern.Global())
    decreases |rules|
  {
    if rules == [] then Success(())
    else if !rules[0].pattern.Global() then Failure(NotGlobal(rules[0].kind))
    else
      var r := ValidateRules(rules[1..]);
      assert forall j :: 1 <= j < |rules| ==> rules[j] == rules[1..][j - 1];
      if r.Failure? then
        ghost var i :| && 0 <= i < |rules[1..]| && !rules[1..][i].pattern.Global()
                       && r.error == NotGlobal(rules[1..][i].kind)
                       && (forall j :: 0 <= j < i ==> rules[1..][j].pattern.Global());
        assert rules[i + 1] == rules[1..][i];
        r
      else r
  }

  /** `defaultRedactionRules`, as rule data: the patterns' source text and flags. */
  const DefaultRules: seq<RedactionRule> := [
    RedactionRule("email", Pattern(@"\b[A-Z0-9._%+-]+@[A-Z0-9.-]+\.[A-Z]{2,}\b", "gi"), "__EMAIL_"),
    RedactionRule("iban", Pattern(@"\b[A-Z]{2}[0-9]{2}[A-Z0-9]{4}[A-Z0-9]{7}[A-Z0-9]{0,16}\b", "gi"), "__IBAN_"),
    RedactionRule("creditcard", Pattern(@"\b(?:\d[ -]*?){13,19}\b", "g"), "__CARD_"),
    RedactionRule("ssn", Pattern(@"\b\d{3}-\d{2}-\d{4}\b", "g"), "__SSN_"),
    RedactionRule("phone", Pattern(@"(?<!\w)(?=(?:\D*\d){7,15}\b)\+?(?:\d[ \t().-]?){6,14}\d(?!\w)", "g"), "__PHONE_")
  ]

  /** The default rules all pass validation. */
  lemma {:induction false} DefaultRulesValid()
    ensures ValidateRules(DefaultRules).Success?
  {
    assert forall i :: 0 <= i < |DefaultRules| ==> 'g' in DefaultRules[i].pattern.flags;
  }

  /** The matches `String.prototype.replace` visits: all of them for a global
      pattern, only the first for a non-global one. */
  function RuleMatches(engine: Engine, rule: RedactionRule, text: string): (m: seq<Span>)
    ensures SpansWellFormed(m, |text|)
    ensures rule.pattern.Global() ==> m == engine(rule.pattern.source, rule.pattern.flags, text)
    ensures !rule.pattern.Global() ==>
      var all := engine(rule.pattern.source, rule.pattern.flags, text);
      if all == [] then m == [] else m == [all[0]]
  {
    var all := engine(rule.pattern.source, rule.pattern.flags, text);
    if rule.pattern.Global() || |all| <= 1 then all else all[..1]
  }

  /** The record a match becomes. */
  function RedactionOf(rule: RedactionRule, counter: int, original: string): Redaction {
    Redaction(Placeholder(rule.placeholderPrefix, counter), original, rule.kind)
  }

  /** The result of one `applyRedactions` call. */
  datatype Redacted = Redacted(text: string, redactions: seq<Redaction>)

  /** Spans all start at or after `from`. */
  predicate AllFrom(spans: seq<Span>, from: nat) {
    forall i :: 0 <= i < |spans| ==> from <= spans[i].start
  }

  /** After the first visited match, the others lie wholly after it. */
  lemma {:induction false} SpansTail(spans: seq<Span>, n: nat, from: nat)
    requires SpansWellFormed(spans, n) && spans != [] && AllFrom(spans, from)
    ensures from <= spans[0].start <= spans[0].end <= n
    ensures SpansWellFormed(spans[1..], n) && AllFrom(spans[1..], spans[0].end)
  {
    assert forall i :: 0 <= i < |spans| - 1 ==> spans[1..][i] == spans[i + 1];
  }

  /** One `working.replace(pattern, callback)`: the text from `from` on, with
      the i-th visited match replaced by the placeholder for counter
      `counter + i`, and the records the callback pushes. */
  function Splice(t: string, spans: seq<Span>, from: nat, rule: RedactionRule, counter: int): (r: Redacted)
    requires SpansWellFormed(spans, |t|) && from <= |t| && AllFrom(spans, from)
    ensures |r.redactions| == |spans|
    ensures spans == [] ==> r.text == t[from..]
    decreases |spans|
  {
    if spans == [] then Redacted(t[from..], [])
    else
      var s := spans[0];
      SpansTail(spans, |t|, from);
      var rest := Splice(t, spans[1..], s.end, rule, counter + 1);
      Redacted(t[from..s.start] + Placeholder(rule.placeholderPrefix, counter) + rest.text,
               [RedactionOf(rule, counter, t[s.start..s.end])] + rest.redactions)
  }

  /** The i-th visited match becomes the i-th record: the placeholder for
      counter `counter + i`, standing for the matched text. */
  lemma {:induction false} SpliceRecords(t: string, spans: seq<Span>, from: nat, rule: RedactionRule, counter: int)
    requires SpansWellFormed(spans, |t|) && from <= |t| && AllFrom(spans, from)
    ensures var r := Splice(t, spans, from, rule, counter);
            forall i :: 0 <= i < |spans| ==>
              r.redactions[i] == RedactionOf(rule, counter + i, t[spans[i].start..spans[i].end])
    decreases |spans|
  {
    if spans != [] {
      SpansTail(spans, |t|, from);
      SpliceRecords(t, spans[1..], spans[0].end, rule, counter + 1);
      var r := Splice(t, spans, from, rule, counter);
      var rest := Splice(t, spans[1..], spans[0].end, rule, counter + 1);
      forall i | 1 <= i < |spans|
        ensures r.redactions[i] == RedactionOf(rule, counter + i, t[spans[i].start..spans[i].end])
      {
        assert r.redactions[i] == rest.redactions[i - 1];
        assert spans[1..][i - 1] == spans[i];
      }
    }
  }

  /** One rule applied to the working text. */
  function ApplyRule(engine: Engine, text: string, rule: RedactionRule, counter: int): Redacted {
    Splice(text, RuleMatches(engine, rule, text), 0, rule, counter)
  }

  /** The loop over `rules`: each rule scans the text the previous rules left,
      and the counter continues across rules. */
  function ApplyRules(engine: Engine, working: string, rules: seq<RedactionRule>, counter: int): (r: Redacted)
    decreases |rules|
  {
    if rules == [] then Redacted(working, [])
    else
      var a := ApplyRule(engine, working, rules[0], counter);
      var b := ApplyRules(engine, a.text, rules[1..], counter + |a.redactions|);
      Redacted(b.text, a.redactions + b.redactions)
  }

  /** `applyRedactions(input, rules, startIndex)`. */
  function ApplyRedactions(engine: Engine, input: string, rules: seq<RedactionRule>, startIndex: int): (r: Redacted)
    ensures input == [] ==> r == Redacted("", [])
    ensures rules == [] ==> r == Redacted(input, [])
  {
    if input == [] then Redacted("", []) else ApplyRules(engine, input, rules, startIndex)
  }

  // ---------------------------------------------------------------------------
  // Properties

  /** Adds one to every rule index. */
  function Bump(o: seq<nat>): (r: seq<nat>)
    ensures |r| == |o| && forall i :: 0 <= i < |o| ==> r[i] == o[i] + 1
  {
    seq(|o|, i requires 0 <= i < |o| => o[i] + 1)
  }

  /** Which rule produced each record: `Owners(...)[i]` is the index in `rules`
      of the rule whose match became the i-th record. */
  function Owners(engine: Engine, working: string, rules: seq<RedactionRule>, counter: int): seq<nat>
    decreases |rules|
  {
    if rules == [] then []
    else
      var a := ApplyRule(engine, working, rules[0], counter);
      seq(|a.redactions|, _ => 0) + Bump(Owners(engine, a.text, rules[1..], counter + |a.redactions|))
  }

  /** `reds` is numbered from `counter` by the rules `o` names, rule-major:
      the i-th record carries the prefix and type of rule `o[i]` and counter
      `counter + i`, and `o` never decreases. */
  predicate Numbered(reds: seq<Redaction>, o: seq<nat>, rules: seq<RedactionRule>, counter: int) {
    && |o| == |reds|
    && (forall i :: 0 <= i < |o| ==>
          && o[i] < |rules|
          && reds[i].placeholder == Placeholder(rules[o[i]].placeholderPrefix, counter + i)
          && reds[i].kind == rules[o[i]].kind)
    && (forall i, j :: 0 <= i < j < |o| ==> o[i] <= o[j])
  }

  /** Records of the first rule followed by records numbered by the rest of
      the rules are numbered by all of them. */
  lemma {:induction false} NumberedCons(a: seq<Redaction>, b: seq<Redaction>, o: seq<nat>, rules: seq<RedactionRule>, counter: int)
    requires |rules| > 0
    requires forall i :: 0 <= i < |a| ==>
      a[i].placeholder == Placeholder(rules[0].placeholderPrefix, counter + i) && a[i].kind == rules[0].kind
    requires Numbered(b, o, rules[1..], counter + |a|)
    ensures Numbered(a + b, seq(|a|, _ => 0) + Bump(o), rules, counter)
  {
    var all := seq(|a|, _ => 0) + Bump(o);
    forall i | |a| <= i < |all|
      ensures all[i] < |rules|
      ensures (a + b)[i].placeholder == Placeholder(rules[all[i]].placeholderPrefix, counter + i)
      ensures (a + b)[i].kind == rules[all[i]].kind
    {
      var k := i - |a|;
      assert all[i] == o[k] + 1;
      assert rules[all[i]] == rules[1..][o[k]];
      assert (a + b)[i] == b[k];
    }
  }

  /** Records come out rule-major (all of one rule's before the next rule's), and
      the i-th record carries its rule's prefix and type and counter
      `counter + i`. */
  lemma {:induction false} RulesNumbered(engine: Engine, working: string, rules: seq<RedactionRule>, counter: int)
    ensures Numbered(ApplyRules(engine, working, rules, counter).redactions,
                     Owners(engine, working, rules, counter), rules, counter)
    decreases |rules|
  {
    if rules != [] {
      var a := ApplyRule(engine, working, rules[0], counter);
      var c := counter + |a.redactions|;
      SpliceRecords(working, RuleMatches(engine, rules[0], working), 0, rules[0], counter);
      RulesNumbered(engine, a.text, rules[1..], c);
      NumberedCons(a.redactions, ApplyRules(engine, a.text, rules[1..], c).redactions,
                   Owners(engine, a.text, rules[1..], c), rules, counter);
    }
  }

  /** The same for a whole `applyRedactions` call on a non-empty input. */
  lemma {:induction false} RedactionsNumbered(engine: Engine, input: string, rules: seq<RedactionRule>, startIndex: int)
    requires input != []
    ensures Numbered(ApplyRedactions(engine, input, rules, startIndex).redactions,
                     Owners(engine, input, rules, startIndex), rules, startIndex)
  {
    RulesNumbered(engine, input, rules, startIndex);
  }

  /** A text on which no rule matches comes back unchanged with no records. */
  lemma {:induction false} NoMatchesUnchanged(engine: Engine, working: string, rules: seq<RedactionRule>, counter: int)
    requires forall i :: 0 <= i < |rules| ==>
      engine(rules[i].pattern.source, rules[i].pattern.flags, working) == []
    ensures ApplyRules(engine, working, rules, counter) == Redacted(working, [])
    decreases |rules|
  {
    if rules != [] {
      assert working[0..] == working;
      NoMatchesUnchanged(engine, working, rules[1..], counter);
    }
  }

  /** Number of decimal digits at the end of `s`. */
  function TrailingDigits(s: string): (n: nat)
    ensures n <= |s|
  {
    if s == [] || !IsDigit(s[|s| - 1]) then 0 else 1 + TrailingDigits(s[..|s| - 1])
  }

  /** After a prefix that is empty or ends in a non-digit, a digit string is
      exactly the trailing digits. */
  lemma {:induction false} TrailingDigitsOf(p: string, d: string)
    requires p == [] || !IsDigit(p[|p| - 1])
    requires AllDigits(d)
    ensures TrailingDigits(p + d) == |d|
    decreases |d|
  {
    if d == [] {
      assert p + d == p;
    } else {
      assert (p + d)[..|p + d| - 1] == p + d[..|d| - 1];
      TrailingDigitsOf(p, d[..|d| - 1]);
    }
  }

  /** A prefix that is empty or ends in a non-digit, followed by a digit
      string: the digit string is recoverable from the concatenation. */
  lemma {:induction false} DigitSuffixUnique(p1: string, d1: string, p2: string, d2: string)
    requires p1 == [] || !IsDigit(p1[|p1| - 1])
    requires p2 == [] || !IsDigit(p2[|p2| - 1])
    requires AllDigits(d1) && AllDigits(d2)
    requires p1 + d1 == p2 + d2
    ensures d1 == d2
  {
    var s := p1 + d1;
    TrailingDigitsOf(p1, d1);
    TrailingDigitsOf(p2, d2);
    assert d1 == s[|p1|..];
    assert d2 == s[|p2|..];
  }

  /** Placeholders built from prefixes that do not end in a digit, with distinct
      non-negative counters, are distinct. */
  lemma {:induction false} PlaceholdersDistinct(p1: string, n1: nat, p2: string, n2: nat)
    requires p1 == [] || !IsDigit(p1[|p1| - 1])
    requires p2 == [] || !IsDigit(p2[|p2| - 1])
    requires n1 != n2
    ensures Placeholder(p1, n1) != Placeholder(p2, n2)
  {
    var d1, d2 := NatToString(n1), NatToString(n2);
    NatToStringInjective(n1, n2);
    var s1, s2 := p1 + d1, p2 + d2;
    var q1, q2 := Placeholder(p1, n1), Placeholder(p2, n2);
    assert q1 == s1 + "__" && q2 == s2 + "__";
    assert q1[..|q1| - 2] == s1 && q2[..|q2| - 2] == s2;
    if q1 == q2 {
      DigitSuffixUnique(p1, d1, p2, d2);
    }
  }

  /** Without the condition on prefixes, placeholders collide: `__A1` with
      counter 1 and `__A` with counter 11 both give `__A11__`. In one call
      this happens when a rule with prefix `__A1` matches ten times and a later
      rule with prefix `__A` matches once. */
  lemma {:induction false} DigitPrefixCollision()
    ensures Placeholder("__A1", 1) == Placeholder("__A", 11) == "__A11__"
  {
    assert NatToString(1) == "1";
    assert NatToString(11) == NatToString(1) + [DigitChar(1)];
  }

  /** Within one call with a non-negative start and prefixes not ending in a
      digit, all placeholders are pairwise distinct. */
  lemma {:induction false} RedactionPlaceholdersDistinct(engine: Engine, input: string, rules: seq<RedactionRule>, startIndex: nat)
    requires forall k :: 0 <= k < |rules| ==>
      rules[k].placeholderPrefix == [] || !IsDigit(rules[k].placeholderPrefix[|rules[k].placeholderPrefix| - 1])
    ensures var r := ApplyRedactions(engine, input, rules, startIndex).redactions;
            forall i, j :: 0 <= i < j < |r| ==> r[i].placeholder != r[j].placeholder
  {
    if input != [] {
      RedactionsNumbered(engine, input, rules, startIndex);
      var r := ApplyRedactions(engine, input, rules, startIndex).redactions;
      var o := Owners(engine, input, rules, startIndex);
      forall i, j | 0 <= i < j < |r|
        ensures r[i].placeholder != r[j].placeholder
      {
        PlaceholdersDistinct(rules[o[i]].placeholderPrefix, startIndex + i,
                             rules[o[j]].placeholderPrefix, startIndex + j);
      }
    }
  }
}
