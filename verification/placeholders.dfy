/** The placeholder auditor (`src/utils/placeholders.ts`): finding
    placeholder-shaped tokens, `/__([A-Z]+)_\d+__/g`, that no redaction record
    accounts for. */
module Placeholders {
  import opened Wrappers
  import opened Strings
  import opened Types

  // ---------------------------------------------------------------------------
  // The token shape

  /** `t` is `__`, upper-case letters up to position `m`, `_`, decimal digits,
      `__`: one whole match of `__([A-Z]+)_\d+__`, with at least one letter and
      one digit. */
  predicate ShapedAt(t: string, m: nat) {
    && 3 <= m && m + 4 <= |t|
    && t[0] == '_' && t[1] == '_'
    && (forall k :: 2 <= k < m ==> IsUpper(t[k]))
    && t[m] == '_'
    && (forall k :: m < k < |t| - 2 ==> IsDigit(t[k]))
    && t[|t| - 2] == '_' && t[|t| - 1] == '_'
  }

  /** `t` has the placeholder shape. */
  predicate IsToken(t: string) {
    exists m: nat | m < |t| :: ShapedAt(t, m)
  }

  /** A rule prefix that opens the placeholder shape: `__`, one or more
      upper-case letters, `_` (every default prefix is one). */
  predicate ShapedPrefix(p: string) {
    && |p| >= 4
    && p[0] == '_' && p[1] == '_'
    && (forall k :: 2 <= k < |p| - 1 ==> IsUpper(p[k]))
    && p[|p| - 1] == '_'
  }

  /** A placeholder generated from a shaped prefix and a non-negative counter
      has the token shape, so the auditor recognises it. */
  lemma {:induction false} GeneratedPlaceholderIsToken(prefix: string, counter: int)
    requires ShapedPrefix(prefix) && counter >= 0
    ensures ShapedAt(Placeholder(prefix, counter), |prefix| - 1)
    ensures IsToken(Placeholder(prefix, counter))
  {
    var p := Placeholder(prefix, counter);
    var d := NatToString(counter);
    assert p == prefix + d + "__";
    forall k | |prefix| - 1 < k < |p| - 2
      ensures IsDigit(p[k])
    {
      assert p[k] == d[k - |prefix|];
    }
    assert ShapedAt(p, |prefix| - 1);
  }

  // ---------------------------------------------------------------------------
  // Matching at one position

  /** Length of the run of upper-case letters of `text` starting at `j`. */
  function UpperRun(text: string, j: nat): (n: nat)
    requires j <= |text|
    ensures j + n <= |text|
    decreases |text| - j
  {
    if j == |text| || !IsUpper(text[j]) then 0 else 1 + UpperRun(text, j + 1)
  }

  /** The run is maximal: upper-case letters up to its end, and none at its end. */
  lemma {:induction false} UpperRunSpec(text: string, j: nat)
    requires j <= |text|
    ensures forall k :: j <= k < j + UpperRun(text, j) ==> IsUpper(text[k])
    ensures j + UpperRun(text, j) == |text| || !IsUpper(text[j + UpperRun(text, j)])
    decreases |text| - j
  {
    if j < |text| && IsUpper(text[j]) {
      UpperRunSpec(text, j + 1);
    }
  }

  /** Length of the run of decimal digits of `text` starting at `j`. */
  function DigitRun(text: string, j: nat): (n: nat)
    requires j <= |text|
    ensures j + n <= |text|
    decreases |text| - j
  {
    if j == |text| || !IsDigit(text[j]) then 0 else 1 + DigitRun(text, j + 1)
  }

  /** The run is maximal: decimal digits up to its end, and none at its end. */
  lemma {:induction false} DigitRunSpec(text: string, j: nat)
    requires j <= |text|
    ensures forall k :: j <= k < j + DigitRun(text, j) ==> IsDigit(text[k])
    ensures j + DigitRun(text, j) == |text| || !IsDigit(text[j + DigitRun(text, j)])
    decreases |text| - j
  {
    if j < |text| && IsDigit(text[j]) {
      DigitRunSpec(text, j + 1);
    }
  }

  /** The length of the match of `__([A-Z]+)_\d+__` that starts exactly at
      position `i` of `text`, if there is one. Backtracking cannot help the
      pattern: giving back a letter or a digit puts a non-`_` where `_` is
      required, so the greedy runs decide the match. */
  function MatchAt(text: string, i: nat): (r: Option<nat>)
    requires i <= |text|
    ensures r.Some? ==> 5 <= r.value && i + r.value <= |text|
  {
    if i + 2 > |text| || text[i] != '_' || text[i + 1] != '_' then None
    else
      var a := UpperRun(text, i + 2);
      if a == 0 || i + 2 + a >= |text| || text[i + 2 + a] != '_' then None
      else
        var d := DigitRun(text, i + 3 + a);
        if d == 0 || i + 5 + a + d > |text| || text[i + 3 + a + d] != '_' || text[i + 4 + a + d] != '_' then None
        else Some(5 + a + d)
  }

  /** What the pattern matches at `i` is a token: its letters end where the
      upper-case run ends. */
  lemma {:induction false} MatchAtShaped(text: string, i: nat)
    requires i <= |text|
    ensures MatchAt(text, i).Some? ==>
      var n := MatchAt(text, i).value;
      i + n <= |text| && ShapedAt(text[i..i + n], 2 + UpperRun(text, i + 2))
  {
    if MatchAt(text, i).Some? {
      var n := MatchAt(text, i).value;
      var a := UpperRun(text, i + 2);
      UpperRunSpec(text, i + 2);
      DigitRunSpec(text, i + 3 + a);
      var d := DigitRun(text, i + 3 + a);
      var t := text[i..i + n];
      assert t[0] == '_' && t[1] == '_' && t[2 + a] == '_' && t[n - 2] == '_' && t[n - 1] == '_';
      forall k | 2 <= k < 2 + a
        ensures IsUpper(t[k])
      {
        assert t[k] == text[i + k];
      }
      forall k | 2 + a < k < n - 2
        ensures IsDigit(t[k])
      {
        assert t[k] == text[i + k];
      }
    }
  }

  /** What the pattern matches at `i` has the token shape. */
  lemma {:induction false} MatchAtIsToken(text: string, i: nat)
    requires i <= |text|
    ensures MatchAt(text, i).Some? ==>
      var n := MatchAt(text, i).value;
      i + n <= |text| && IsToken(text[i..i + n])
  {
    MatchAtShaped(text, i);
  }

  /** Conversely, a token sitting at position `i` is exactly what the pattern
      matches there, whatever follows it. */
  lemma {:induction false} MatchAtToken(text: string, i: nat, n: nat, m: nat)
    requires i + n <= |text| && ShapedAt(text[i..i + n], m)
    ensures MatchAt(text, i) == Some(n)
  {
    TokenRuns(text, i, n, m);
    MatchAtOf(text, i, m - 2, n - m - 3, n);
  }

  /** The characters and runs of a token sitting at position `i`. */
  lemma {:induction false} TokenRuns(text: string, i: nat, n: nat, m: nat)
    requires i + n <= |text| && ShapedAt(text[i..i + n], m)
    ensures 3 <= m && m + 4 <= n
    ensures text[i] == '_' && text[i + 1] == '_' && text[i + m] == '_'
    ensures text[i + n - 2] == '_' && text[i + n - 1] == '_'
    ensures UpperRun(text, i + 2) == m - 2 && DigitRun(text, i + m + 1) == n - m - 3
  {
    var t := text[i..i + n];
    assert text[i] == t[0] && text[i + 1] == t[1];
    assert text[i + m] == t[m] && text[i + n - 2] == t[n - 2] && text[i + n - 1] == t[n - 1];
    assert UpperRun(text, i + 2) == m - 2 by {
      forall k | i + 2 <= k < i + m
        ensures IsUpper(text[k])
      {
        assert text[k] == t[k - i];
      }
      UpperRunOf(text, i + 2, m - 2);
    }
    assert DigitRun(text, i + m + 1) == n - m - 3 by {
      forall k | i + m + 1 <= k < i + n - 2
        ensures IsDigit(text[k])
      {
        assert text[k] == t[k - i];
      }
      DigitRunOf(text, i + m + 1, n - m - 3);
    }
  }

  /** `MatchAt` read off its runs. */
  lemma {:induction false} MatchAtOf(text: string, i: nat, a: nat, d: nat, n: nat)
    requires n == 5 + a + d && i + n <= |text| && 0 < a && 0 < d
    requires text[i] == '_' && text[i + 1] == '_' && text[i + 2 + a] == '_'
    requires text[i + 3 + a + d] == '_' && text[i + 4 + a + d] == '_'
    requires UpperRun(text, i + 2) == a && DigitRun(text, i + 3 + a) == d
    ensures MatchAt(text, i) == Some(n)
  {
  }

  lemma {:induction false} UpperRunOf(text: string, j: nat, n: nat)
    requires j + n < |text| && !IsUpper(text[j + n])
    requires forall k :: j <= k < j + n ==> IsUpper(text[k])
    ensures UpperRun(text, j) == n
  {
    UpperRunSpec(text, j);
  }

  lemma {:induction false} DigitRunOf(text: string, j: nat, n: nat)
    requires j + n < |text| && !IsDigit(text[j + n])
    requires forall k :: j <= k < j + n ==> IsDigit(text[k])
    ensures DigitRun(text, j) == n
  {
    DigitRunSpec(text, j);
  }

  // ---------------------------------------------------------------------------
  // The global scan

  /** The tokens a global `exec` loop visits, starting the search at `pos`:
      the leftmost match at or after the current position, then the search
      resumes where that match ended. */
  function TokensFrom(text: string, pos: nat): seq<string>
    requires pos <= |text|
    decreases |text| - pos
  {
    if pos == |text| then []
    else match MatchAt(text, pos)
      case Some(n) => [text[pos..pos + n]] + TokensFrom(text, pos + n)
      case None => TokensFrom(text, pos + 1)
  }

  /** Every token the scan visits has the placeholder shape and occurs in
      `text`. */
  lemma {:induction false} TokensFromShape(text: string, pos: nat)
    requires pos <= |text|
    ensures forall k :: 0 <= k < |TokensFrom(text, pos)| ==>
      IsToken(TokensFrom(text, pos)[k]) && Occurs(text, TokensFrom(text, pos)[k])
    decreases |text| - pos
  {
    if pos < |text| {
      match MatchAt(text, pos)
      case Some(n) => {
        MatchAtIsToken(text, pos);
        var t := text[pos..pos + n];
        assert OccursAt(text, t, pos);
        var r, rest := TokensFrom(text, pos), TokensFrom(text, pos + n);
        assert r == [t] + rest;
        TokensFromShape(text, pos + n);
        forall k | 0 <= k < |r|
          ensures IsToken(r[k]) && Occurs(text, r[k])
        {
          if k > 0 {
            assert r[k] == rest[k - 1];
          }
        }
      }
      case None => {
        TokensFromShape(text, pos + 1);
      }
    }
  }

  /** Every match of the pattern in `text`, left to right, non-overlapping. */
  function Tokens(text: string): seq<string> {
    TokensFrom(text, 0)
  }

  // ---------------------------------------------------------------------------
  // First-seen de-duplication

  /** The tokens kept, in order: a token is kept at its first occurrence, when it
      is not known. */
  function FirstSeen(tokens: seq<string>, known: seq<string>): (r: seq<string>)
    decreases |tokens|
  {
    if tokens == [] then []
    else
      var n := |tokens| - 1;
      FirstSeen(tokens[..n], known)
        + (if tokens[n] !in known && tokens[n] !in tokens[..n] then [tokens[n]] else [])
  }

  predicate NoDuplicates(s: seq<string>) {
    forall i, j :: 0 <= i < j < |s| ==> s[i] != s[j]
  }

  /** What `FirstSeen` keeps: exactly the unknown tokens, each once. */
  lemma {:induction false} FirstSeenContents(tokens: seq<string>, known: seq<string>)
    ensures forall x :: x in FirstSeen(tokens, known) <==> x in tokens && x !in known
    ensures NoDuplicates(FirstSeen(tokens, known))
    decreases |tokens|
  {
    if tokens != [] {
      var n := |tokens| - 1;
      FirstSeenContents(tokens[..n], known);
      assert tokens == tokens[..n] + [tokens[n]];
    }
  }

  /** The `Set`-based loop body: add a token unless it is known or already
      seen; a `Set` keeps insertion order. */
  function AddUnknown(seen: seq<string>, tokens: seq<string>, known: seq<string>): seq<string>
    decreases |tokens|
  {
    if tokens == [] then seen
    else
      var t := tokens[0];
      AddUnknown(if t in known || t in seen then seen else seen + [t], tokens[1..], known)
  }

  /** One more token extends the first-seen list exactly when the set would
      take it. */
  lemma {:induction false} FirstSeenSnoc(a: seq<string>, t: string, known: seq<string>)
    ensures AddUnknown(FirstSeen(a, known), [t], known) == FirstSeen(a + [t], known)
  {
    var a' := a + [t];
    FirstSeenContents(a, known);
    assert a'[..|a|] == a;
    assert a'[|a|] == t;
  }

  /** Feeding tokens to the set continues the first-seen list. */
  lemma {:induction false} AddUnknownFirstSeen(a: seq<string>, b: seq<string>, known: seq<string>)
    ensures AddUnknown(FirstSeen(a, known), b, known) == FirstSeen(a + b, known)
    decreases |b|
  {
    if b == [] {
      assert a + b == a;
    } else {
      var t := b[0];
      var a' := a + [t];
      FirstSeenSnoc(a, t, known);
      AddUnknownFirstSeen(a', b[1..], known);
      assert a' + b[1..] == a + b;
    }
  }

  /** What the scan reports for `text`: the first-seen list of its unknown
      tokens, each a token of `text`, each once. */
  lemma {:induction false} UnknownTokens(text: string, known: seq<string>)
    ensures AddUnknown([], Tokens(text), known) == FirstSeen(Tokens(text), known)
    ensures forall k :: 0 <= k < |FirstSeen(Tokens(text), known)| ==>
      var t := FirstSeen(Tokens(text), known)[k]; IsToken(t) && Occurs(text, t) && t !in known
    ensures forall t :: t in Tokens(text) ==> t in known || t in FirstSeen(Tokens(text), known)
    ensures NoDuplicates(FirstSeen(Tokens(text), known))
  {
    var ts := Tokens(text);
    var fs := FirstSeen(ts, known);
    assert FirstSeen([], known) == [];
    AddUnknownFirstSeen([], ts, known);
    assert [] + ts == ts;
    FirstSeenContents(ts, known);
    TokensFromShape(text, 0);
    forall k | 0 <= k < |fs|
      ensures IsToken(fs[k]) && Occurs(text, fs[k]) && fs[k] !in known
    {
      assert fs[k] in fs;
      var j :| 0 <= j < |ts| && ts[j] == fs[k];
    }
  }

  /** One step of the scan where a token starts at `pos`. */
  lemma {:induction false} ScanMatch(text: string, pos: nat, n: nat, seen: seq<string>, known: seq<string>)
    requires pos < |text| && MatchAt(text, pos) == Some(n)
    ensures 0 < n && pos + n <= |text|
    ensures var t := text[pos..pos + n];
      AddUnknown(seen, TokensFrom(text, pos), known)
        == AddUnknown(if t in known || t in seen then seen else seen + [t], TokensFrom(text, pos + n), known)
  {
    var t := text[pos..pos + n];
    var rest := TokensFrom(text, pos + n);
    assert TokensFrom(text, pos) == [t] + rest;
    assert ([t] + rest)[0] == t && ([t] + rest)[1..] == rest;
  }

  /** One step of the scan where no token starts at `pos`. */
  lemma {:induction false} ScanNoMatch(text: string, pos: nat)
    requires pos < |text| && MatchAt(text, pos) == None
    ensures TokensFrom(text, pos) == TokensFrom(text, pos + 1)
  {
  }

  /** `findUnknownPlaceholders(text, known)`: the placeholder-shaped tokens of
      `text` that are not in `known`, each once, in order of first appearance. */
  method FindUnknownPlaceholders(text: string, known: seq<string>) returns (r: seq<string>)
    ensures r == FirstSeen(Tokens(text), known)
    ensures forall k :: 0 <= k < |r| ==> IsToken(r[k]) && Occurs(text, r[k]) && r[k] !in known
    ensures forall t :: t in Tokens(text) ==> t in known || t in r
    ensures NoDuplicates(r)
  {
    if text == [] {
      UnknownTokens(text, known);
      return [];
    }
    var seen: seq<string> := [];
    var pos: nat := 0;
    while pos < |text|
      invariant pos <= |text|
      invariant AddUnknown(seen, TokensFrom(text, pos), known) == AddUnknown([], Tokens(text), known)
      decreases |text| - pos
    {
      match MatchAt(text, pos)
      case Some(n) =>
        ScanMatch(text, pos, n, seen, known);
        var token := text[pos..pos + n];
        seen := if token in known || token in seen then seen else seen + [token];
        pos := pos + n;
      case None =>
        ScanNoMatch(text, pos);
        pos := pos + 1;
    }
    r := seen;
    UnknownTokens(text, known);
  }
}
