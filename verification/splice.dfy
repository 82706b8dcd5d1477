/** `applyRedactions` followed on a trace of cells (module `Cells`): each
    match becomes the cells of its placeholder, which remember the text they
    replaced. The text of the trace is the working text, what the trace stands
    for stays the input, and every placeholder cell agrees with a record. */
module SpliceTrace {
  import opened Seqs
  import opened Types
  import opened RedactionEngine
  import opened Placeholders
  import opened Cells

  /** Every visited match is non-empty and lies on input characters, not on
      characters of a placeholder an earlier rule inserted. */
  predicate OnInput(cells: seq<Cell>, spans: seq<Span>) {
    forall i :: 0 <= i < |spans| ==>
      && spans[i].start < spans[i].end <= |cells|
      && forall t :: spans[i].start <= t < spans[i].end ==> cells[t].Input?
  }

  lemma {:induction false} OnInputTail(cells: seq<Cell>, spans: seq<Span>)
    requires OnInput(cells, spans) && spans != []
    ensures OnInput(cells, spans[1..])
  {
    assert forall i :: 0 <= i < |spans| - 1 ==> spans[1..][i] == spans[i + 1];
  }

  /** `Splice` on cells: the i-th match becomes the cells of the placeholder
      for counter `counter + i`, standing for the text it replaced. */
  function SpliceCells(cells: seq<Cell>, spans: seq<Span>, from: nat, rule: RedactionRule, counter: int): seq<Cell>
    requires SpansWellFormed(spans, |cells|) && from <= |cells| && AllFrom(spans, from)
    decreases |spans|
  {
    if spans == [] then cells[from..]
    else
      var s := spans[0];
      SpansTail(spans, |cells|, from);
      cells[from..s.start]
        + Group(Placeholder(rule.placeholderPrefix, counter), Text(cells)[s.start..s.end])
        + SpliceCells(cells, spans[1..], s.end, rule, counter + 1)
  }

  /** The spliced cells spell the text `Splice` produces. */
  lemma {:induction false} SpliceText(cells: seq<Cell>, spans: seq<Span>, from: nat, rule: RedactionRule, counter: int)
    requires SpansWellFormed(spans, |cells|) && from <= |cells| && AllFrom(spans, from)
    ensures Text(SpliceCells(cells, spans, from, rule, counter)) == Splice(Text(cells), spans, from, rule, counter).text
    decreases |spans|
  {
    if spans == [] {
      TextSuffix(cells, from);
    } else {
      var s := spans[0];
      SpansTail(spans, |cells|, from);
      var P := Placeholder(rule.placeholderPrefix, counter);
      var A := cells[from..s.start];
      var G := Group(P, Text(cells)[s.start..s.end]);
      var R := SpliceCells(cells, spans[1..], s.end, rule, counter + 1);
      SpliceText(cells, spans[1..], s.end, rule, counter + 1);
      TextAppend(A + G, R);
      TextAppend(A, G);
      TextSlice(cells, from, s.start);
      GroupSelf(P, Text(cells)[s.start..s.end]);
    }
  }

  /** Input cells stand for what they spell. */
  lemma {:induction false} PlainSelf(cells: seq<Cell>)
    requires forall t :: 0 <= t < |cells| ==> cells[t].Input?
    ensures Orig(cells) == Text(cells)
    decreases |cells|
  {
    if cells != [] {
      assert forall t :: 0 <= t < |cells| - 1 ==> cells[1..][t] == cells[t + 1];
      PlainSelf(cells[1..]);
      TextAppend([cells[0]], cells[1..]);
      assert [cells[0]] + cells[1..] == cells;
    }
  }

  /** Splicing does not change what the trace stands for. */
  lemma {:induction false} SpliceOrig(cells: seq<Cell>, spans: seq<Span>, from: nat, rule: RedactionRule, counter: int)
    requires SpansWellFormed(spans, |cells|) && from <= |cells| && AllFrom(spans, from)
    requires OnInput(cells, spans)
    ensures Orig(SpliceCells(cells, spans, from, rule, counter)) == Orig(cells[from..])
    decreases |spans|
  {
    if spans != [] {
      var s := spans[0];
      SpansTail(spans, |cells|, from);
      OnInputTail(cells, spans);
      var P := Placeholder(rule.placeholderPrefix, counter);
      var back := Text(cells)[s.start..s.end];
      var A := cells[from..s.start];
      var G := Group(P, back);
      var R := SpliceCells(cells, spans[1..], s.end, rule, counter + 1);
      SpliceOrig(cells, spans[1..], s.end, rule, counter + 1);
      OrigAppend(A + G, R);
      OrigAppend(A, G);
      GroupSelf(P, back);
      AppendAssoc(Orig(A), back, Orig(cells[s.end..]));
      PlainSlice(cells, from, s.start, s.end);
    }
  }

  /** Cutting the trace around a run of input characters: the run stands for
      what it spells. */
  lemma {:induction false} PlainSlice(cells: seq<Cell>, from: nat, x: nat, y: nat)
    requires from <= x <= y <= |cells|
    requires forall t :: x <= t < y ==> cells[t].Input?
    ensures Orig(cells[from..]) == Orig(cells[from..x]) + (Text(cells)[x..y] + Orig(cells[y..]))
  {
    var M := cells[x..y];
    assert forall t :: 0 <= t < |M| ==> M[t] == cells[x + t];
    PlainSelf(M);
    TextSlice(cells, x, y);
    SliceSplit(cells, from, x);
    SliceSplit(cells, x, y);
    OrigAppend(cells[from..x], cells[x..]);
    OrigAppend(M, cells[y..]);
  }

  /** Input characters of a well-formed trace are not `_`. */
  lemma {:induction false} NoSeparator(cells: seq<Cell>, x: nat, y: nat)
    requires Closed(cells) && x <= y <= |cells|
    requires forall t :: x <= t < y ==> cells[t].Input?
    ensures '_' !in Text(cells)[x..y]
  {
    forall k | 0 <= k < y - x
      ensures Text(cells)[x..y][k] != '_'
    {
      assert CellOk(cells, x + k);
    }
  }

  /** The input before a match followed by the placeholder that replaces it
      is well formed, and the match ends on a boundary. */
  lemma {:induction false} HeadClosed(cells: seq<Cell>, from: nat, x: nat, y: nat, prefix: string, counter: int)
    requires Closed(cells) && Boundary(cells, from) && from <= x < y <= |cells|
    requires forall t :: x <= t < y ==> cells[t].Input?
    requires ShapedPrefix(prefix) && counter >= 0
    ensures Closed(cells[from..x] + Group(Placeholder(prefix, counter), Text(cells)[x..y]))
    ensures Boundary(cells, y)
  {
    InputEnd(cells, y - 1);
    ClosedSlice(cells, from, x);
    GeneratedPlaceholderIsToken(prefix, counter);
    NoSeparator(cells, x, y);
    GroupClosed(Placeholder(prefix, counter), Text(cells)[x..y]);
    ClosedAppend(cells[from..x], Group(Placeholder(prefix, counter), Text(cells)[x..y]));
  }

  /** Splicing keeps the trace well formed. */
  lemma {:induction false} SpliceClosed(cells: seq<Cell>, spans: seq<Span>, from: nat, rule: RedactionRule, counter: int)
    requires SpansWellFormed(spans, |cells|) && from <= |cells| && AllFrom(spans, from)
    requires OnInput(cells, spans) && Closed(cells) && Boundary(cells, from)
    requires ShapedPrefix(rule.placeholderPrefix) && counter >= 0
    ensures Closed(SpliceCells(cells, spans, from, rule, counter))
    decreases |spans|
  {
    if spans == [] {
      assert cells[from..] == cells[from..|cells|];
      ClosedSlice(cells, from, |cells|);
    } else {
      var s := spans[0];
      SpansTail(spans, |cells|, from);
      OnInputTail(cells, spans);
      HeadClosed(cells, from, s.start, s.end, rule.placeholderPrefix, counter);
      SpliceClosed(cells, spans[1..], s.end, rule, counter + 1);
      ClosedAppend(cells[from..s.start] + Group(Placeholder(rule.placeholderPrefix, counter), Text(cells)[s.start..s.end]),
                   SpliceCells(cells, spans[1..], s.end, rule, counter + 1));
    }
  }

  // ---------------------------------------------------------------------------
  // Placeholder cells agree with the records

  /** The (placeholder, original) pairs of a list of records. */
  function Pairs(reds: seq<Redaction>): (r: seq<(string, string)>)
    ensures |r| == |reds|
  {
    seq(|reds|, i requires 0 <= i < |reds| => (reds[i].placeholder, reds[i].original))
  }

  lemma {:induction false} PairsAppend(a: seq<Redaction>, b: seq<Redaction>)
    ensures Pairs(a + b) == Pairs(a) + Pairs(b)
  {
    assert forall i :: 0 <= i < |a| + |b| ==> Pairs(a + b)[i] == (Pairs(a) + Pairs(b))[i];
  }

  /** Every placeholder cell stands for the original of a record with its
      placeholder. */
  predicate Agrees(cells: seq<Cell>, reds: seq<Redaction>) {
    forall c :: c in cells && c.Mark? ==> (c.p, c.back) in Pairs(reds)
  }

  /** The cells the splice adds agree with the records it produces; the cells
      it keeps agreed before. */
  lemma {:induction false} SpliceAgrees(cells: seq<Cell>, spans: seq<Span>, from: nat, rule: RedactionRule, counter: int,
                                        prev: seq<Redaction>)
    requires SpansWellFormed(spans, |cells|) && from <= |cells| && AllFrom(spans, from)
    requires Agrees(cells, prev)
    ensures Agrees(SpliceCells(cells, spans, from, rule, counter),
                   prev + Splice(Text(cells), spans, from, rule, counter).redactions)
    decreases |spans|
  {
    var reds := Splice(Text(cells), spans, from, rule, counter).redactions;
    PairsAppend(prev, reds);
    if spans == [] {
      assert forall c :: c in cells[from..] ==> c in cells;
    } else {
      var s := spans[0];
      SpansTail(spans, |cells|, from);
      var P := Placeholder(rule.placeholderPrefix, counter);
      var back := Text(cells)[s.start..s.end];
      var A := cells[from..s.start];
      var G := Group(P, back);
      var rest := Splice(Text(cells), spans[1..], s.end, rule, counter + 1).redactions;
      var R := SpliceCells(cells, spans[1..], s.end, rule, counter + 1);
      SpliceAgrees(cells, spans[1..], s.end, rule, counter + 1, prev);
      PairsAppend(prev, rest);
      assert reds == [RedactionOf(rule, counter, back)] + rest;
      PairsAppend([RedactionOf(rule, counter, back)], rest);
      assert Pairs(reds)[0] == (P, back);
      forall c: Cell | c in A + G + R && c.Mark?
        ensures (c.p, c.back) in Pairs(prev + reds)
      {
        if c in A {
          assert c in cells;
        } else if c in G {
          assert (c.p, c.back) == Pairs(prev + reds)[|prev|];
        } else {
          assert (c.p, c.back) in Pairs(prev) + Pairs(rest);
        }
      }
    }
  }

  // ---------------------------------------------------------------------------
  // The loop over the rules

  /** The trace of the loop over `rules`. */
  function RulesCells(engine: Engine, cells: seq<Cell>, rules: seq<RedactionRule>, counter: int): seq<Cell>
    decreases |rules|
  {
    if rules == [] then cells
    else
      var spans := RuleMatches(engine, rules[0], Text(cells));
      RulesCells(engine, SpliceCells(cells, spans, 0, rules[0], counter), rules[1..], counter + |spans|)
  }

  /** Every rule's visited matches are non-empty and lie on input characters
      of the trace the earlier rules left. */
  predicate TraceOk(engine: Engine, cells: seq<Cell>, rules: seq<RedactionRule>, counter: int)
    decreases |rules|
  {
    rules == [] ||
    var spans := RuleMatches(engine, rules[0], Text(cells));
    && OnInput(cells, spans)
    && TraceOk(engine, SpliceCells(cells, spans, 0, rules[0], counter), rules[1..], counter + |spans|)
  }

  /** Every rule's prefix has the token shape `__[A-Z]+_`. */
  predicate ShapedPrefixes(rules: seq<RedactionRule>) {
    forall k :: 0 <= k < |rules| ==> ShapedPrefix(rules[k].placeholderPrefix)
  }

  /** The trace of the loop spells the text `applyRedactions` builds. */
  lemma {:induction false} RulesText(engine: Engine, cells: seq<Cell>, rules: seq<RedactionRule>, counter: int)
    ensures Text(RulesCells(engine, cells, rules, counter)) == ApplyRules(engine, Text(cells), rules, counter).text
    decreases |rules|
  {
    if rules != [] {
      var spans := RuleMatches(engine, rules[0], Text(cells));
      assert cells[0..] == cells;
      SpliceText(cells, spans, 0, rules[0], counter);
      RulesText(engine, SpliceCells(cells, spans, 0, rules[0], counter), rules[1..], counter + |spans|);
    }
  }

  /** When every match lies on input characters, the trace of the loop still
      stands for the text it started from. */
  lemma {:induction false} RulesOrig(engine: Engine, cells: seq<Cell>, rules: seq<RedactionRule>, counter: int)
    requires TraceOk(engine, cells, rules, counter)
    ensures Orig(RulesCells(engine, cells, rules, counter)) == Orig(cells)
    decreases |rules|
  {
    if rules != [] {
      var spans := RuleMatches(engine, rules[0], Text(cells));
      assert cells[0..] == cells;
      SpliceOrig(cells, spans, 0, rules[0], counter);
      RulesOrig(engine, SpliceCells(cells, spans, 0, rules[0], counter), rules[1..], counter + |spans|);
    }
  }

  lemma {:induction false} ShapedPrefixesTail(rules: seq<RedactionRule>)
    requires ShapedPrefixes(rules) && rules != []
    ensures ShapedPrefix(rules[0].placeholderPrefix) && ShapedPrefixes(rules[1..])
  {
    assert forall k :: 0 <= k < |rules| - 1 ==> rules[1..][k] == rules[k + 1];
  }

  /** When every match lies on input characters and every prefix has the
      token shape, the trace of the loop stays well formed. */
  lemma {:induction false} RulesClosed(engine: Engine, cells: seq<Cell>, rules: seq<RedactionRule>, counter: int)
    requires Closed(cells) && TraceOk(engine, cells, rules, counter)
    requires ShapedPrefixes(rules) && counter >= 0
    ensures Closed(RulesCells(engine, cells, rules, counter))
    decreases |rules|
  {
    if rules != [] {
      var spans := RuleMatches(engine, rules[0], Text(cells));
      StartBoundary(cells);
      ShapedPrefixesTail(rules);
      SpliceClosed(cells, spans, 0, rules[0], counter);
      RulesClosed(engine, SpliceCells(cells, spans, 0, rules[0], counter), rules[1..], counter + |spans|);
    }
  }

  /** The placeholder cells of the loop's trace agree with the records it
      pushes. */
  lemma {:induction false} RulesAgrees(engine: Engine, cells: seq<Cell>, rules: seq<RedactionRule>, counter: int, prev: seq<Redaction>)
    requires Agrees(cells, prev)
    ensures Agrees(RulesCells(engine, cells, rules, counter), prev + ApplyRules(engine, Text(cells), rules, counter).redactions)
    decreases |rules|
  {
    if rules == [] {
      assert prev + [] == prev;
    } else {
      var spans := RuleMatches(engine, rules[0], Text(cells));
      var c := SpliceCells(cells, spans, 0, rules[0], counter);
      var a := ApplyRule(engine, Text(cells), rules[0], counter);
      SpliceAgrees(cells, spans, 0, rules[0], counter, prev);
      SpliceText(cells, spans, 0, rules[0], counter);
      RulesAgrees(engine, c, rules[1..], counter + |spans|, prev + a.redactions);
      AppendAssoc(prev, a.redactions, ApplyRules(engine, a.text, rules[1..], counter + |a.redactions|).redactions);
    }
  }
}
