/** A working text traced character by character: each character either comes
    from the input or is one character of an inserted placeholder, which
    remembers the original it stands for. This is the bookkeeping behind the
    round trip of `applyRedactions` and `reinjectPlaceholders`. */
module Cells {
  import opened Strings
  import opened Seqs
  import opened Placeholders

  /** One character of a working text: an input character, or character `pos`
      of placeholder `p`, which replaced the text `back`. */
  datatype Cell = Input(c: char) | Mark(p: string, pos: nat, back: string)

  /** The character a cell shows. */
  function Ch(cell: Cell): char {
    match cell
    case Input(c) => c
    case Mark(p, pos, _) => if pos < |p| then p[pos] else '_'
  }

  /** The working text the cells spell. */
  function Text(cells: seq<Cell>): (t: string)
    ensures |t| == |cells|
  {
    seq(|cells|, i requires 0 <= i < |cells| => Ch(cells[i]))
  }

  lemma {:induction false} TextAt(cells: seq<Cell>, i: nat)
    requires i < |cells|
    ensures Text(cells)[i] == Ch(cells[i])
  {
  }

  lemma {:induction false} TextAppend(a: seq<Cell>, b: seq<Cell>)
    ensures Text(a + b) == Text(a) + Text(b)
  {
    assert forall i :: 0 <= i < |a + b| ==> Text(a + b)[i] == (Text(a) + Text(b))[i];
  }

  lemma {:induction false} TextSlice(cells: seq<Cell>, x: nat, y: nat)
    requires x <= y <= |cells|
    ensures Text(cells[x..y]) == Text(cells)[x..y]
  {
    assert forall i :: 0 <= i < y - x ==> Text(cells[x..y])[i] == Text(cells)[x..y][i];
  }

  lemma {:induction false} TextSuffix(cells: seq<Cell>, x: nat)
    requires x <= |cells|
    ensures Text(cells[x..]) == Text(cells)[x..]
  {
    assert cells[x..] == cells[x..|cells|];
    TextSlice(cells, x, |cells|);
  }

  /** What a cell stands for in the input: an input character itself, a
      placeholder's original at its first character, nothing at the others. */
  function OrigOf(cell: Cell): string {
    match cell
    case Input(c) => [c]
    case Mark(_, pos, back) => if pos == 0 then back else []
  }

  /** The text the cells stand for. */
  function Orig(cells: seq<Cell>): string
    decreases |cells|
  {
    if cells == [] then [] else OrigOf(cells[0]) + Orig(cells[1..])
  }

  lemma {:induction false} OrigAppend(a: seq<Cell>, b: seq<Cell>)
    ensures Orig(a + b) == Orig(a) + Orig(b)
    decreases |a|
  {
    if a == [] {
      AppendEmpty(b);
    } else {
      TailAppend(a, b);
      OrigAppend(a[1..], b);
      AppendAssoc(OrigOf(a[0]), Orig(a[1..]), Orig(b));
    }
  }

  /** The cells of an input text. */
  function Inputs(s: string): (r: seq<Cell>)
    ensures |r| == |s|
  {
    seq(|s|, i requires 0 <= i < |s| => Input(s[i]))
  }

  /** An input text spells itself and stands for itself. */
  lemma {:induction false} InputsSelf(s: string)
    ensures Text(Inputs(s)) == s
    ensures Orig(Inputs(s)) == s
    decreases |s|
  {
    assert forall i :: 0 <= i < |s| ==> Text(Inputs(s))[i] == s[i];
    if s != [] {
      assert Inputs(s)[1..] == Inputs(s[1..]);
      InputsSelf(s[1..]);
      assert s == [s[0]] + s[1..];
    }
  }

  lemma {:induction false} InputsAreInput(s: string)
    ensures forall c :: c in Inputs(s) ==> c.Input?
  {
  }

  /** The cells of placeholder `p` standing for `back`. */
  function Group(p: string, back: string): (r: seq<Cell>)
    ensures |r| == |p|
  {
    seq(|p|, j requires 0 <= j < |p| => Mark(p, j, back))
  }

  /** Cells that are all non-first placeholder characters stand for nothing. */
  lemma {:induction false} OrigTail(cells: seq<Cell>)
    requires forall c :: c in cells ==> c.Mark? && c.pos > 0
    ensures Orig(cells) == []
    decreases |cells|
  {
    if cells != [] {
      assert cells[0] in cells;
      assert forall c :: c in cells[1..] ==> c in cells;
      OrigTail(cells[1..]);
    }
  }

  /** A placeholder's cells spell the placeholder and stand for its original. */
  lemma {:induction false} GroupSelf(p: string, back: string)
    requires p != []
    ensures Text(Group(p, back)) == p
    ensures Orig(Group(p, back)) == back
  {
    assert forall i :: 0 <= i < |p| ==> Text(Group(p, back))[i] == p[i];
    var g := Group(p, back);
    assert g[0] == Mark(p, 0, back);
    OrigTail(g[1..]);
    AppendEmpty(back);
  }

  // ---------------------------------------------------------------------------
  // Well-formed traces

  /** Cell `t` fits its neighbours: input characters are not `_`, and a
      placeholder character is flanked by its placeholder's previous and next
      characters, the placeholder has the token shape, and its original has no
      `_`. */
  predicate CellOk(cells: seq<Cell>, t: nat)
    requires t < |cells|
  {
    match cells[t]
    case Input(c) => c != '_'
    case Mark(p, pos, back) =>
      && pos < |p| && IsToken(p) && '_' !in back
      && (pos > 0 ==> t > 0 && cells[t - 1] == Mark(p, pos - 1, back))
      && (pos < |p| - 1 ==> t + 1 < |cells| && cells[t + 1] == Mark(p, pos + 1, back))
  }

  /** Every cell fits: the trace is whole placeholders between input
      characters. */
  predicate Closed(cells: seq<Cell>) {
    forall t: nat | t < |cells| :: CellOk(cells, t)
  }

  /** Position `x` is not inside a placeholder: it is the end, an input
      character, or a placeholder's first character. */
  predicate Boundary(cells: seq<Cell>, x: nat) {
    x <= |cells| && (x < |cells| ==> !(cells[x].Mark? && cells[x].pos > 0))
  }

  lemma {:induction false} ClosedAppend(a: seq<Cell>, b: seq<Cell>)
    requires Closed(a) && Closed(b)
    ensures Closed(a + b)
  {
    var ab := a + b;
    forall t: nat | t < |ab|
      ensures CellOk(ab, t)
    {
      if t < |a| {
        assert CellOk(a, t);
        assert ab[t] == a[t];
        if t > 0 {
          assert ab[t - 1] == a[t - 1];
        }
        if t + 1 < |a| {
          assert ab[t + 1] == a[t + 1];
        }
      } else {
        assert CellOk(b, t - |a|);
        assert ab[t] == b[t - |a|];
        if t > |a| {
          assert ab[t - 1] == b[t - 1 - |a|];
        }
        if t + 1 < |ab| {
          assert ab[t + 1] == b[t + 1 - |a|];
        }
      }
    }
  }

  lemma {:induction false} ClosedSlice(cells: seq<Cell>, x: nat, y: nat)
    requires Closed(cells) && x <= y && Boundary(cells, x) && Boundary(cells, y)
    ensures Closed(cells[x..y])
  {
    var s := cells[x..y];
    forall t: nat | t < |s|
      ensures CellOk(s, t)
    {
      assert CellOk(cells, x + t);
      assert s[t] == cells[x + t];
      if t > 0 {
        assert s[t - 1] == cells[x + t - 1];
      }
      if t + 1 < |s| {
        assert s[t + 1] == cells[x + t + 1];
      }
    }
  }

  lemma {:induction false} InputsClosed(s: string)
    requires '_' !in s
    ensures Closed(Inputs(s))
  {
    forall t: nat | t < |s|
      ensures CellOk(Inputs(s), t)
    {
      assert s[t] in s;
    }
  }

  lemma {:induction false} GroupClosed(p: string, back: string)
    requires IsToken(p) && '_' !in back
    ensures Closed(Group(p, back))
  {
  }

  /** The first character of a placeholder, then the rest of it. */
  lemma {:induction false} HeadOf(cells: seq<Cell>, t: nat)
    requires Closed(cells) && t < |cells| && cells[t].Mark?
    ensures t >= cells[t].pos && cells[t - cells[t].pos] == Mark(cells[t].p, 0, cells[t].back)
    decreases cells[t].pos
  {
    assert CellOk(cells, t);
    if cells[t].pos > 0 {
      HeadOf(cells, t - 1);
    }
  }

  lemma {:induction false} GroupFrom(cells: seq<Cell>, h: nat, j: nat)
    requires Closed(cells) && h < |cells| && cells[h].Mark? && cells[h].pos == 0 && j < |cells[h].p|
    ensures h + j < |cells| && cells[h + j] == Mark(cells[h].p, j, cells[h].back)
    decreases j
  {
    if j > 0 {
      GroupFrom(cells, h, j - 1);
      assert CellOk(cells, h + j - 1);
    }
  }

  /** A placeholder character lies in a whole copy of its placeholder. */
  lemma {:induction false} GroupAt(cells: seq<Cell>, t: nat)
    requires Closed(cells) && t < |cells| && cells[t].Mark?
    ensures var h := t - cells[t].pos;
            && 0 <= h && h + |cells[t].p| <= |cells|
            && (forall u :: h <= u < h + |cells[t].p| ==> cells[u] == Mark(cells[t].p, u - h, cells[t].back))
            && cells[h..h + |cells[t].p|] == Group(cells[t].p, cells[t].back)
  {
    HeadOf(cells, t);
    var h := t - cells[t].pos;
    var p := cells[t].p;
    assert CellOk(cells, t);
    GroupFrom(cells, h, |p| - 1);
    forall u | h <= u < h + |p|
      ensures cells[u] == Mark(p, u - h, cells[t].back)
    {
      GroupFrom(cells, h, u - h);
    }
  }

  /** After a whole placeholder comes a boundary. */
  lemma {:induction false} GroupEnd(cells: seq<Cell>, h: nat)
    requires Closed(cells) && h < |cells| && cells[h].Mark? && cells[h].pos == 0
    ensures h + |cells[h].p| <= |cells| && Boundary(cells, h + |cells[h].p|)
  {
    GroupAt(cells, h);
    var e := h + |cells[h].p|;
    if e < |cells| {
      assert CellOk(cells, e);
    }
  }

  /** A well-formed trace starts on a boundary. */
  lemma {:induction false} StartBoundary(cells: seq<Cell>)
    requires Closed(cells)
    ensures Boundary(cells, 0)
  {
    if 0 < |cells| {
      assert CellOk(cells, 0);
    }
  }

  /** After an input character comes a boundary. */
  lemma {:induction false} InputEnd(cells: seq<Cell>, i: nat)
    requires Closed(cells) && i < |cells| && cells[i].Input?
    ensures Boundary(cells, i + 1)
  {
    if i + 1 < |cells| {
      assert CellOk(cells, i + 1);
    }
  }

  // ---------------------------------------------------------------------------
  // Placeholders are found only where they were put

  /** Which characters of a token are `_`, letters and digits. */
  lemma {:induction false} ShapeChars(q: string, m: nat, x: int)
    ensures ShapedAt(q, m) && 0 <= x < |q| ==>
      && (q[x] == '_' <==> x == 0 || x == 1 || x == m || x == |q| - 2 || x == |q| - 1)
      && (IsDigit(q[x]) <==> m < x < |q| - 2)
      && (IsUpper(q[x]) <==> 2 <= x < m)
  {
  }

  /** The cells from `j` on show `P`. */
  predicate ShowsAt(cells: seq<Cell>, P: string, j: nat) {
    j + |P| <= |cells| && forall t :: j <= t < j + |P| ==> Ch(cells[t]) == P[t - j]
  }

  /** The `_` before the digits of a shown token is the `_` before the digits
      of a placeholder in the trace. */
  lemma {:induction false} SeparatorCell(cells: seq<Cell>, P: string, m: nat, j: nat) returns (mq: nat)
    requires Closed(cells) && ShapedAt(P, m) && ShowsAt(cells, P, j)
    ensures cells[j + m].Mark? && ShapedAt(cells[j + m].p, mq) && cells[j + m].pos == mq
  {
    ShapeChars(P, m, m - 1);
    ShapeChars(P, m, m);
    ShapeChars(P, m, m + 1);
    var s := j + m;
    assert CellOk(cells, s);
    assert Ch(cells[s]) == P[m];
    var q, k := cells[s].p, cells[s].pos;
    mq :| mq < |q| && ShapedAt(q, mq);
    ShapeChars(q, mq, k - 1);
    ShapeChars(q, mq, k);
    ShapeChars(q, mq, k + 1);
    assert Ch(cells[s - 1]) == P[m - 1];
    assert k < |q| - 1;
    assert Ch(cells[s + 1]) == P[m + 1];
  }

  /** ... and that placeholder starts where the shown token starts. */
  lemma {:induction false} SameSeparator(cells: seq<Cell>, P: string, m: nat, j: nat, mq: nat)
    requires Closed(cells) && ShapedAt(P, m) && ShowsAt(cells, P, j)
    requires cells[j + m].Mark? && ShapedAt(cells[j + m].p, mq) && cells[j + m].pos == mq
    ensures mq == m
  {
    var s := j + m;
    var q := cells[s].p;
    GroupAt(cells, s);
    var h := s - mq;
    ShapeChars(q, mq, 2);
    ShapeChars(q, mq, mq - m);
    ShapeChars(P, m, 2);
    ShapeChars(P, m, m - mq);
    assert Ch(cells[j]) == P[0] && Ch(cells[j + 1]) == P[1];
    assert Ch(cells[h]) == q[0] && Ch(cells[h + 1]) == q[1];
  }

  /** The text shows `P` from `j` on. */
  lemma {:induction false} ShowsOfText(cells: seq<Cell>, P: string, j: nat)
    requires j + |P| <= |cells| && Text(cells)[j..j + |P|] == P
    ensures ShowsAt(cells, P, j)
  {
    forall t | j <= t < j + |P|
      ensures Ch(cells[t]) == P[t - j]
    {
      assert Text(cells)[t] == Text(cells)[j..j + |P|][t - j];
    }
  }

  /** A placeholder whose separator lines up with that of a shown token ends
      where the shown token ends: both end in `__` after their digits. */
  lemma {:induction false} SameLength(cells: seq<Cell>, P: string, m: nat, j: nat)
    requires Closed(cells) && ShapedAt(P, m) && ShowsAt(cells, P, j)
    requires cells[j + m].Mark? && ShapedAt(cells[j + m].p, m) && cells[j + m].pos == m
    ensures |cells[j + m].p| == |P|
  {
    var q, b := cells[j + m].p, cells[j + m].back;
    GroupAt(cells, j + m);
    var x := (if |q| < |P| then |q| else |P|) - 2;
    ShapeChars(q, m, x);
    ShapeChars(P, m, x);
    assert Ch(cells[j + x]) == P[x];
    assert cells[j + x] == Mark(q, x, b);
  }

  /** ... and then it is a copy of the shown token, starting where it starts. */
  lemma {:induction false} SameToken(cells: seq<Cell>, P: string, m: nat, j: nat)
    requires Closed(cells) && ShowsAt(cells, P, j) && m < |P|
    requires cells[j + m].Mark? && cells[j + m].pos == m && |cells[j + m].p| == |P|
    ensures cells[j] == Mark(P, 0, cells[j + m].back)
  {
    var q, b := cells[j + m].p, cells[j + m].back;
    GroupAt(cells, j + m);
    forall x | 0 <= x < |P|
      ensures q[x] == P[x]
    {
      assert Ch(cells[j + x]) == P[x];
      assert cells[j + x] == Mark(q, x, b);
    }
    assert q == P;
  }

  /** In a closed trace, an occurrence of a token starts at a copy of that
      token: the text cannot assemble one out of input characters and pieces
      of other placeholders. */
  lemma {:induction false} OccurrenceIsHead(cells: seq<Cell>, P: string, m: nat, j: nat)
    requires Closed(cells) && ShapedAt(P, m) && j + |P| <= |cells|
    requires Text(cells)[j..j + |P|] == P
    ensures cells[j].Mark? && cells[j].p == P && cells[j].pos == 0
  {
    ShowsOfText(cells, P, j);
    var mq := SeparatorCell(cells, P, m, j);
    SameSeparator(cells, P, m, j, mq);
    SameLength(cells, P, m, j);
    SameToken(cells, P, m, j);
  }
}
