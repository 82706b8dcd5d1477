/** The record shapes of `src/types.ts`, plus the abstract regular-expression
    engine the redaction engine is parameterised by. */
module Types {
  import opened Wrappers
  import opened Strings

  /** One match of a pattern: the half-open character range [start, end) of the
      scanned text. */
  datatype Span = Span(start: nat, end: nat)

  /** What any regular-expression scan reports: matches inside the text, each
      ending no later than the next one starts (zero-length matches allowed). */
  predicate SpansWellFormed(spans: seq<Span>, n: nat) {
    && (forall i :: 0 <= i < |spans| ==> spans[i].start <= spans[i].end <= n)
    && (forall i, j :: 0 <= i < j < |spans| ==> spans[i].end <= spans[j].start)
  }

  /** The host's regular-expression engine: given a pattern's `source`, its
      `flags` and a text, the matches a global scan of a freshly compiled
      `RegExp(source, flags)` visits, left to right. Being a pure function of its
      arguments, it carries no scan position from one use to the next. */
  type Engine = e: (string, string, string) -> seq<Span>
    | forall source, flags, text :: SpansWellFormed(e(source, flags, text), |text|)
    witness NoMatches

  /** The engine under which no pattern matches anything. */
  function NoMatches(source: string, flags: string, text: string): seq<Span> {
    []
  }

  /** A regular expression as data: its source text and its flags. */
  datatype Pattern = Pattern(source: string, flags: string) {
    /** `RegExp.prototype.global`. */
    predicate Global() {
      'g' in flags
    }
  }

  /** `RedactionRule` (`type` is spelled `kind`). */
  datatype RedactionRule = RedactionRule(kind: string, pattern: Pattern, placeholderPrefix: string)

  /** `Redaction`: a placeholder and the original text it stands for. */
  datatype Redaction = Redaction(placeholder: string, original: string, kind: string)

  datatype Region = EU | US | GlobalRegion

  /** `BuildAiContextOptions`; every field may be left out. */
  datatype BuildAiContextOptions = BuildAiContextOptions(
    labeledOnly: Option<bool>,
    redactionRules: Option<seq<RedactionRule>>,
    region: Option<Region>)

  /** `AiContext`. */
  datatype AiContext = AiContext(fields: map<string, string>, rawText: string, redactions: seq<Redaction>)

  /** The error `validateRedactionRules` throws, naming the offending rule's type. */
  datatype ConfigurationError = NotGlobal(kind: string)

  /** The placeholder format: prefix, decimal counter, closing `__`. */
  function Placeholder(prefix: string, counter: int): (p: string)
    ensures StartsWith(p, prefix)
    ensures |p| >= |prefix| + 3 && p[|p| - 2..] == "__"
    ensures counter >= 0 ==> p == prefix + NatToString(counter) + "__"
  {
    var p := prefix + IntToString(counter) + "__";
    assert p[..|prefix|] == prefix;
    assert |p| >= 2 && p[|p| - 2..] == "__";
    p
  }
}
