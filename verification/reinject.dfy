/** Reinjection (`node/src/reinject.ts`): restoring original values into text
    by literal, split/join substring replacement. */
module Reinject {
  import opened Strings
  import opened Types

  /** `s.split(p).join(o)` for a non-empty `p`, as one left-to-right scan:
      every leftmost, non-overlapping occurrence of `p` becomes `o`. */
  function ReplaceAll(s: string, p: string, o: string): string
    requires p != []
    decreases |s|
  {
    if |s| < |p| then s
    else if s[..|p|] == p then o + ReplaceAll(s[|p|..], p, o)
    else [s[0]] + ReplaceAll(s[1..], p, o)
  }

  /** `s.split(p)` for a non-empty `p`, collecting the current piece in `cur`. */
  function SplitFrom(s: string, p: string, cur: string): (r: seq<string>)
    requires p != []
    ensures |r| >= 1
    decreases |s|
  {
    if |s| < |p| then [cur + s]
    else if s[..|p|] == p then [cur] + SplitFrom(s[|p|..], p, "")
    else SplitFrom(s[1..], p, cur + [s[0]])
  }

  /** `String.prototype.split` with a non-empty string separator. */
  function Split(s: string, p: string): seq<string>
    requires p != []
  {
    SplitFrom(s, p, "")
  }

  /** The scan is exactly split-then-join: `ReplaceAll` agrees with the
      `split`/`join` composition the source writes. */
  lemma {:induction false} SplitJoinIsReplaceAll(s: string, p: string, o: string, cur: string)
    requires p != []
    ensures Join(SplitFrom(s, p, cur), o) == cur + ReplaceAll(s, p, o)
    decreases |s|
  {
    if |s| < |p| {
    } else if s[..|p|] == p {
      var rest := SplitFrom(s[|p|..], p, "");
      SplitJoinIsReplaceAll(s[|p|..], p, o, "");
      JoinCons(cur, rest, o);
      assert "" + ReplaceAll(s[|p|..], p, o) == ReplaceAll(s[|p|..], p, o);
      assert ReplaceAll(s, p, o) == o + ReplaceAll(s[|p|..], p, o);
    } else {
      SplitJoinIsReplaceAll(s[1..], p, o, cur + [s[0]]);
    }
  }

  /** `s.split(p).join(o) == ReplaceAll(s, p, o)`. */
  lemma {:induction false} SplitJoin(s: string, p: string, o: string)
    requires p != []
    ensures Join(Split(s, p), o) == ReplaceAll(s, p, o)
  {
    SplitJoinIsReplaceAll(s, p, o, "");
    assert "" + ReplaceAll(s, p, o) == ReplaceAll(s, p, o);
  }

  /** Text without an occurrence of `p` is left unchanged. */
  lemma {:induction false} ReplaceAllNoOccurrence(s: string, p: string, o: string)
    requires p != []
    requires !Occurs(s, p)
    ensures ReplaceAll(s, p, o) == s
    decreases |s|
  {
    if |s| >= |p| {
      assert !OccursAt(s, p, 0);
      assert s[..|p|] != p;
      assert !Occurs(s[1..], p) by {
        forall i: nat | OccursAt(s[1..], p, i)
          ensures false
        {
          assert s[1..][i..i + |p|] == s[i + 1..i + 1 + |p|];
          assert OccursAt(s, p, i + 1);
        }
      }
      ReplaceAllNoOccurrence(s[1..], p, o);
    }
  }

  /** Replacing `p` by itself changes nothing: split and join are inverse. */
  lemma {:induction false} ReplaceAllSelf(s: string, p: string)
    requires p != []
    ensures ReplaceAll(s, p, p) == s
    decreases |s|
  {
    if |s| >= |p| {
      if s[..|p|] == p {
        ReplaceAllSelf(s[|p|..], p);
        assert s == s[..|p|] + s[|p|..];
      } else {
        ReplaceAllSelf(s[1..], p);
        assert s == [s[0]] + s[1..];
      }
    }
  }

  /** One record applied: its placeholder replaced everywhere by its original,
      or nothing when the placeholder is empty (`if (!placeholder) continue`). */
  function ReinjectOne(text: string, r: Redaction): string {
    if r.placeholder == [] then text else ReplaceAll(text, r.placeholder, r.original)
  }

  /** The loop of `reinjectPlaceholders`: records in list order, each applied
      to the previous result. */
  function ReinjectEach(text: string, redactions: seq<Redaction>): string
    decreases |redactions|
  {
    if redactions == [] then text else ReinjectEach(ReinjectOne(text, redactions[0]), redactions[1..])
  }

  /** `reinjectPlaceholders(text, redactions)`. */
  function ReinjectPlaceholders(text: string, redactions: seq<Redaction>): (r: string)
    ensures text == [] ==> r == []
    ensures redactions == [] ==> r == text
  {
    if text == [] then ""
    else if redactions == [] then text
    else ReinjectEach(text, redactions)
  }

  /** Records are applied in order: a list split in two is the first half's
      result fed to the second half. */
  lemma {:induction false} ReinjectEachAppend(text: string, a: seq<Redaction>, b: seq<Redaction>)
    ensures ReinjectEach(text, a + b) == ReinjectEach(ReinjectEach(text, a), b)
    decreases |a|
  {
    if a == [] {
      assert a + b == b;
    } else {
      assert (a + b)[0] == a[0] && (a + b)[1..] == a[1..] + b;
      ReinjectEachAppend(ReinjectOne(text, a[0]), a[1..], b);
    }
  }

  /** A record with an empty placeholder is skipped. */
  lemma {:induction false} EmptyPlaceholderSkipped(text: string, r: Redaction, rest: seq<Redaction>)
    requires r.placeholder == []
    ensures ReinjectEach(text, [r] + rest) == ReinjectEach(text, rest)
  {
    assert ([r] + rest)[1..] == rest;
  }

  /** Text containing none of the placeholders comes back unchanged. */
  lemma {:induction false} ReinjectNoPlaceholders(text: string, redactions: seq<Redaction>)
    requires forall k :: 0 <= k < |redactions| && redactions[k].placeholder != [] ==>
      !Occurs(text, redactions[k].placeholder)
    ensures ReinjectPlaceholders(text, redactions) == text
    decreases |redactions|
  {
    if text != [] && redactions != [] {
      var r := redactions[0];
      if r.placeholder != [] {
        ReplaceAllNoOccurrence(text, r.placeholder, r.original);
      }
      assert ReinjectOne(text, r) == text;
      ReinjectNoPlaceholders(text, redactions[1..]);
      if redactions[1..] == [] {
        assert ReinjectEach(text, redactions[1..]) == text;
      }
    }
  }
}
