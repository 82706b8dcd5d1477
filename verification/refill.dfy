/** Reinjecting one placeholder over a trace: when the working text is the
    text of a well-formed trace of cells (module `Cells`) and every copy of the
    placeholder `P` stands for the same original, replacing every occurrence
    of `P` is the same as putting back the original of each copy of `P` in the
    trace. */
module Refill {
  import opened Strings
  import opened Seqs
  import opened Types
  import opened RedactionEngine
  import opened Reinject
  import opened Placeholders
  import opened Cells

  // ---------------------------------------------------------------------------
  // Reinjecting one placeholder

  /** One cell after the placeholder `P` has been put back: the first cell of
      a copy of `P` becomes the original's characters, the others vanish. */
  function FillCell(cell: Cell, P: string): seq<Cell> {
    if cell.Mark? && cell.p == P then (if cell.pos == 0 then Inputs(cell.back) else []) else [cell]
  }

  /** The trace after every copy of `P` has been put back. */
  function Fill(cells: seq<Cell>, P: string): seq<Cell>
    decreases |cells|
  {
    if cells == [] then [] else FillCell(cells[0], P) + Fill(cells[1..], P)
  }

  lemma {:induction false} FillAppend(a: seq<Cell>, b: seq<Cell>, P: string)
    ensures Fill(a + b, P) == Fill(a, P) + Fill(b, P)
    decreases |a|
  {
    if a == [] {
      AppendEmpty(b);
      AppendEmpty(Fill(b, P));
    } else {
      TailAppend(a, b);
      FillAppend(a[1..], b, P);
      AppendAssoc(FillCell(a[0], P), Fill(a[1..], P), Fill(b, P));
    }
  }

  lemma {:induction false} FillAt(cells: seq<Cell>, i: nat, P: string)
    requires i < |cells|
    ensures Fill(cells[i..], P) == FillCell(cells[i], P) + Fill(cells[i + 1..], P)
  {
    assert cells[i..][0] == cells[i] && cells[i..][1..] == cells[i + 1..];
  }

  lemma {:induction false} FillSplit(cells: seq<Cell>, i: nat, n: nat, P: string)
    requires i + n <= |cells|
    ensures Fill(cells[i..], P) == Fill(cells[i..i + n], P) + Fill(cells[i + n..], P)
  {
    assert cells[i..] == cells[i..i + n] + cells[i + n..];
    FillAppend(cells[i..i + n], cells[i + n..], P);
  }

  lemma {:induction false} FillPrefix(cells: seq<Cell>, i: nat, n: nat, P: string, front: seq<Cell>)
    requires i + n <= |cells| && Fill(cells[i..i + n], P) == front
    ensures Fill(cells[i..], P) == front + Fill(cells[i + n..], P)
  {
    FillSplit(cells, i, n, P);
  }

  lemma {:induction false} FillGroupTail(p: string, back: string, P: string, x: nat)
    requires 1 <= x <= |p|
    ensures Fill(Group(p, back)[x..], P) == if p == P then [] else Group(p, back)[x..]
    decreases |p| - x
  {
    var g := Group(p, back);
    if x < |p| {
      FillAt(g, x, P);
      FillGroupTail(p, back, P, x + 1);
      if p != P {
        assert g[x..] == [g[x]] + g[x + 1..];
      } else {
        AppendEmpty<Cell>([]);
      }
    }
  }

  /** Putting `P` back in one of its copies gives the original; other
      placeholders are left alone. */
  lemma {:induction false} FillGroup(p: string, back: string, P: string)
    requires p != []
    ensures Fill(Group(p, back), P) == if p == P then Inputs(back) else Group(p, back)
  {
    var g := Group(p, back);
    FillAt(g, 0, P);
    FillGroupTail(p, back, P, 1);
    assert g[0..] == g;
    if p == P {
      AppendEmpty(Inputs(back));
    } else {
      assert g == [g[0]] + g[1..];
    }
  }

  lemma {:induction false} FillOwnGroup(P: string, o: string)
    requires P != []
    ensures Fill(Group(P, o), P) == Inputs(o)
  {
    FillGroup(P, o, P);
  }

  /** What is left after filling: input characters, and the cells of other
      placeholders. */
  lemma {:induction false} FillMarks(cells: seq<Cell>, P: string)
    ensures forall c :: c in Fill(cells, P) && c.Mark? ==> c in cells && c.p != P
    decreases |cells|
  {
    if cells != [] {
      FillMarks(cells[1..], P);
      assert forall c :: c in cells[1..] ==> c in cells;
      if cells[0].Mark? {
        InputsAreInput(cells[0].back);
      }
    }
  }

  /** Filling keeps a trace closed and keeps what it stands for, one unit at
      a time: an input character ... */
  lemma {:induction false} FillInputUnit(cells: seq<Cell>, i: nat, P: string)
    requires Closed(cells) && i < |cells| && cells[i].Input?
    requires Closed(Fill(cells[i + 1..], P))
    requires Orig(Fill(cells[i + 1..], P)) == Orig(cells[i + 1..])
    ensures Closed(Fill(cells[i..], P))
    ensures Orig(Fill(cells[i..], P)) == Orig(cells[i..])
  {
    FillAt(cells, i, P);
    var rest := Fill(cells[i + 1..], P);
    assert CellOk(cells, i);
    assert Closed([cells[i]]) by {
      assert CellOk([cells[i]], 0);
    }
    ClosedAppend([cells[i]], rest);
    OrigAppend([cells[i]], rest);
    assert cells[i..][0] == cells[i] && cells[i..][1..] == cells[i + 1..];
  }

  /** A placeholder's cells after filling are closed and stand for its
      original. */
  lemma {:induction false} FillGroupSelf(p: string, b: string, P: string)
    requires IsToken(p) && '_' !in b
    ensures Closed(Fill(Group(p, b), P)) && Orig(Fill(Group(p, b), P)) == b
  {
    FillGroup(p, b, P);
    GroupSelf(p, b);
    if p == P {
      InputsClosed(b);
      InputsSelf(b);
    } else {
      GroupClosed(p, b);
    }
  }

  /** ... and a whole placeholder. */
  lemma {:induction false} FillGroupUnit(cells: seq<Cell>, i: nat, e: nat, P: string, p: string, b: string)
    requires i <= e <= |cells| && cells[i..e] == Group(p, b)
    requires IsToken(p) && '_' !in b
    requires Closed(Fill(cells[e..], P))
    requires Orig(Fill(cells[e..], P)) == Orig(cells[e..])
    ensures Closed(Fill(cells[i..], P))
    ensures Orig(Fill(cells[i..], P)) == Orig(cells[i..])
  {
    var g := Group(p, b);
    var head := Fill(g, P);
    var rest := Fill(cells[e..], P);
    FillPrefix(cells, i, e - i, P, head);
    FillGroupSelf(p, b, P);
    ClosedAppend(head, rest);
    OrigAppend(head, rest);
    SliceSplit(cells, i, e);
    OrigAppend(g, cells[e..]);
    GroupSelf(p, b);
  }

  /** From a boundary on, filling keeps the trace closed and keeps what it
      stands for. */
  lemma {:induction false} FillUnits(cells: seq<Cell>, i: nat, P: string)
    requires Closed(cells) && Boundary(cells, i)
    ensures Closed(Fill(cells[i..], P))
    ensures Orig(Fill(cells[i..], P)) == Orig(cells[i..])
    decreases |cells| - i
  {
    if i == |cells| {
      assert cells[i..] == [];
    } else if cells[i].Input? {
      InputEnd(cells, i);
      FillUnits(cells, i + 1, P);
      FillInputUnit(cells, i, P);
    } else {
      assert CellOk(cells, i);
      GroupAt(cells, i);
      GroupEnd(cells, i);
      var p, b := cells[i].p, cells[i].back;
      FillUnits(cells, i + |p|, P);
      FillGroupUnit(cells, i, i + |p|, P, p, b);
    }
  }

  /** One step of `ReplaceAll` where no occurrence starts. */
  lemma {:induction false} ReplaceAllHead(s: string, p: string, o: string)
    requires p != [] && s != [] && !(|s| >= |p| && s[..|p|] == p)
    ensures ReplaceAll(s, p, o) == [s[0]] + ReplaceAll(s[1..], p, o)
  {
    assert s == [s[0]] + s[1..];
  }

  /** One step of `ReplaceAll` where an occurrence starts. */
  lemma {:induction false} ReplaceAllMatch(s: string, p: string, o: string)
    requires p != [] && |s| >= |p| && s[..|p|] == p
    ensures ReplaceAll(s, p, o) == o + ReplaceAll(s[|p|..], p, o)
  {
  }

  /** `ReplaceAll` from an occurrence of `p` on. */
  lemma {:induction false} ReplaceAllAt(s: string, p: string, o: string, i: nat)
    requires p != [] && i + |p| <= |s| && s[i..i + |p|] == p
    ensures ReplaceAll(s[i..], p, o) == o + ReplaceAll(s[i + |p|..], p, o)
  {
    SuffixSlices(s, i, |p|);
    ReplaceAllMatch(s[i..], p, o);
  }

  /** Filling a copy of `P` standing for `o` yields `o` as input cells. */
  lemma {:induction false} FillAtCopyCells(cells: seq<Cell>, P: string, o: string, i: nat)
    requires P != [] && i + |P| <= |cells| && cells[i..i + |P|] == Group(P, o)
    ensures Fill(cells[i..], P) == Inputs(o) + Fill(cells[i + |P|..], P)
  {
    FillOwnGroup(P, o);
    FillPrefix(cells, i, |P|, P, Inputs(o));
  }

  lemma {:induction false} TextInputsAppend(o: string, rest: seq<Cell>)
    ensures Text(Inputs(o) + rest) == o + Text(rest)
  {
    TextAppend(Inputs(o), rest);
    InputsSelf(o);
  }

  /** Filling a copy of `P` standing for `o` spells `o`. */
  lemma {:induction false} FillAtCopy(cells: seq<Cell>, P: string, o: string, i: nat)
    requires P != [] && i + |P| <= |cells| && cells[i..i + |P|] == Group(P, o)
    ensures Text(Fill(cells[i..], P)) == o + Text(Fill(cells[i + |P|..], P))
  {
    FillAtCopyCells(cells, P, o, i);
    TextInputsAppend(o, Fill(cells[i + |P|..], P));
  }

  /** Where a copy of `P` standing for `o` sits, `ReplaceAll` puts `o` in its
      place, and so does filling. */
  lemma {:induction false} MatchFill(cells: seq<Cell>, P: string, o: string, i: nat)
    requires P != [] && i + |P| <= |cells| && cells[i..i + |P|] == Group(P, o)
    ensures ReplaceAll(Text(cells)[i + |P|..], P, o) == Text(Fill(cells[i + |P|..], P)) ==>
            ReplaceAll(Text(cells)[i..], P, o) == Text(Fill(cells[i..], P))
  {
    var e := i + |P|;
    assert Text(cells)[i..e] == P by {
      GroupSelf(P, o);
      TextSlice(cells, i, e);
    }
    ReplaceAllAt(Text(cells), P, o, i);
    FillAtCopy(cells, P, o, i);
  }

  /** Where `P` occurs in a closed trace, a copy of it standing for `o` sits. */
  lemma {:induction false} MatchGroup(cells: seq<Cell>, P: string, m: nat, o: string, i: nat)
    requires Closed(cells) && ShapedAt(P, m) && i + |P| <= |cells|
    requires Text(cells)[i..i + |P|] == P
    requires forall c :: c in cells && c.Mark? && c.p == P ==> c.back == o
    ensures cells[i..i + |P|] == Group(P, o)
    ensures Boundary(cells, i + |P|)
  {
    OccurrenceIsHead(cells, P, m, i);
    GroupAt(cells, i);
    GroupEnd(cells, i);
    assert cells[i] in cells;
  }

  /** Where `P` occurs in a closed trace, `ReplaceAll` and filling both put
      `o` in its place, and what follows does not continue a copy of `P`. */
  lemma {:induction false} MatchStep(cells: seq<Cell>, P: string, m: nat, o: string, i: nat)
    requires Closed(cells) && ShapedAt(P, m) && i + |P| <= |cells|
    requires Text(cells)[i..i + |P|] == P
    requires forall c :: c in cells && c.Mark? && c.p == P ==> c.back == o
    ensures i + |P| < |cells| ==> !(cells[i + |P|].Mark? && cells[i + |P|].p == P && cells[i + |P|].pos > 0)
    ensures ReplaceAll(Text(cells)[i + |P|..], P, o) == Text(Fill(cells[i + |P|..], P)) ==>
            ReplaceAll(Text(cells)[i..], P, o) == Text(Fill(cells[i..], P))
  {
    MatchGroup(cells, P, m, o, i);
    MatchFill(cells, P, o, i);
  }

  /** Where `P` does not occur in the text, no copy of `P` starts either. */
  lemma {:induction false} NoCopyStarts(cells: seq<Cell>, P: string, i: nat)
    requires Closed(cells) && i < |cells|
    requires !(cells[i].Mark? && cells[i].p == P && cells[i].pos > 0)
    requires var T := Text(cells)[i..]; !(|T| >= |P| && T[..|P|] == P)
    ensures !(cells[i].Mark? && cells[i].p == P)
  {
    if cells[i].Mark? && cells[i].p == P {
      GroupAt(cells, i);
      assert false;
    }
  }

  /** The cell after one that is not inside a copy of `P` does not continue
      one. */
  lemma {:induction false} NoCopyContinues(cells: seq<Cell>, P: string, i: nat)
    requires Closed(cells) && i < |cells| && !(cells[i].Mark? && cells[i].p == P)
    ensures i + 1 < |cells| ==> !(cells[i + 1].Mark? && cells[i + 1].p == P && cells[i + 1].pos > 0)
  {
    if i + 1 < |cells| {
      assert CellOk(cells, i + 1);
    }
  }

  /** `ReplaceAll` keeps a character where `P` does not start. */
  lemma {:induction false} ReplaceKeeps(cells: seq<Cell>, P: string, o: string, i: nat)
    requires P != [] && i < |cells|
    requires var T := Text(cells)[i..]; !(|T| >= |P| && T[..|P|] == P)
    ensures ReplaceAll(Text(cells)[i..], P, o) == [Ch(cells[i])] + ReplaceAll(Text(cells)[i + 1..], P, o)
  {
    var T := Text(cells)[i..];
    ReplaceAllHead(T, P, o);
    TextAt(cells, i);
    assert T[0] == Ch(cells[i]) && T[1..] == Text(cells)[i + 1..];
  }

  /** Filling keeps a cell that is not part of a copy of `P`. */
  lemma {:induction false} FillKeeps(cells: seq<Cell>, P: string, i: nat)
    requires i < |cells| && !(cells[i].Mark? && cells[i].p == P)
    ensures Text(Fill(cells[i..], P)) == [Ch(cells[i])] + Text(Fill(cells[i + 1..], P))
  {
    FillAt(cells, i, P);
    TextAppend([cells[i]], Fill(cells[i + 1..], P));
    assert Text([cells[i]]) == [Ch(cells[i])];
  }

  /** Where `P` does not occur, both keep the character. */
  lemma {:induction false} ReplaceSkipStep(cells: seq<Cell>, P: string, m: nat, o: string, i: nat)
    requires Closed(cells) && ShapedAt(P, m) && i < |cells|
    requires !(cells[i].Mark? && cells[i].p == P && cells[i].pos > 0)
    requires var T := Text(cells)[i..]; !(|T| >= |P| && T[..|P|] == P)
    ensures i + 1 < |cells| ==> !(cells[i + 1].Mark? && cells[i + 1].p == P && cells[i + 1].pos > 0)
    ensures ReplaceAll(Text(cells)[i + 1..], P, o) == Text(Fill(cells[i + 1..], P)) ==>
            ReplaceAll(Text(cells)[i..], P, o) == Text(Fill(cells[i..], P))
  {
    NoCopyStarts(cells, P, i);
    NoCopyContinues(cells, P, i);
    ReplaceKeeps(cells, P, o, i);
    FillKeeps(cells, P, i);
  }

  /** Replacing every occurrence of a token in the text is putting it back in
      every copy, provided every copy stands for the replacement. */
  lemma {:induction false} ReplaceIsFill(cells: seq<Cell>, P: string, m: nat, o: string, i: nat)
    requires Closed(cells) && ShapedAt(P, m) && i <= |cells|
    requires i < |cells| ==> !(cells[i].Mark? && cells[i].p == P && cells[i].pos > 0)
    requires forall c :: c in cells && c.Mark? && c.p == P ==> c.back == o
    ensures ReplaceAll(Text(cells)[i..], P, o) == Text(Fill(cells[i..], P))
    decreases |cells| - i, 1
  {
    var T := Text(cells)[i..];
    if i == |cells| {
      assert cells[i..] == [];
    } else if |T| >= |P| && T[..|P|] == P {
      SuffixSlices(Text(cells), i, |P|);
      ReplaceAtMatch(cells, P, m, o, i);
    } else {
      ReplaceAtOther(cells, P, m, o, i);
    }
  }

  lemma {:induction false} ReplaceAtMatch(cells: seq<Cell>, P: string, m: nat, o: string, i: nat)
    requires Closed(cells) && ShapedAt(P, m) && i + |P| <= |cells|
    requires Text(cells)[i..i + |P|] == P
    requires forall c :: c in cells && c.Mark? && c.p == P ==> c.back == o
    ensures ReplaceAll(Text(cells)[i..], P, o) == Text(Fill(cells[i..], P))
    decreases |cells| - i, 0
  {
    MatchStep(cells, P, m, o, i);
    ReplaceIsFill(cells, P, m, o, i + |P|);
  }

  lemma {:induction false} ReplaceAtOther(cells: seq<Cell>, P: string, m: nat, o: string, i: nat)
    requires Closed(cells) && ShapedAt(P, m) && i < |cells|
    requires !(cells[i].Mark? && cells[i].p == P && cells[i].pos > 0)
    requires var T := Text(cells)[i..]; !(|T| >= |P| && T[..|P|] == P)
    requires forall c :: c in cells && c.Mark? && c.p == P ==> c.back == o
    ensures ReplaceAll(Text(cells)[i..], P, o) == Text(Fill(cells[i..], P))
    decreases |cells| - i, 0
  {
    ReplaceSkipStep(cells, P, m, o, i);
    ReplaceIsFill(cells, P, m, o, i + 1);
  }
}
