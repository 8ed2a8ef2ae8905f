/** Row expansion: every projected row is repeated `QTD` times, in input
    order (app.py:59, `df.loc[df.index.repeat(df['QTD'])]`). */
module Expansion {
  import opened Labels

  /** Total number of labels asked for. */
  function SumQtd(rows: seq<Label>): nat {
    if |rows| == 0 then 0 else rows[0].qtd + SumQtd(rows[1..])
  }

  /** `n` copies of `l`. */
  function Repeat(l: Label, n: nat): (r: seq<Label>)
    ensures |r| == n
    ensures forall i :: 0 <= i < n ==> r[i] == l
  {
    if n == 0 then [] else Repeat(l, n - 1) + [l]
  }

  /** The expanded table. */
  function Expand(rows: seq<Label>): (r: seq<Label>)
    ensures |r| == SumQtd(rows)
  {
    if |rows| == 0 then [] else Repeat(rows[0], rows[0].qtd) + Expand(rows[1..])
  }

  lemma {:induction false} SumQtdConcat(a: seq<Label>, b: seq<Label>)
    ensures SumQtd(a + b) == SumQtd(a) + SumQtd(b)
  {
    if |a| == 0 {
      assert a + b == b;
    } else {
      assert (a + b)[1..] == a[1..] + b;
      SumQtdConcat(a[1..], b);
    }
  }

  /** Expansion distributes over concatenation of tables. */
  lemma {:induction false} ExpandConcat(a: seq<Label>, b: seq<Label>)
    ensures Expand(a + b) == Expand(a) + Expand(b)
  {
    if |a| == 0 {
      assert a + b == b;
    } else {
      assert (a + b)[1..] == a[1..] + b;
      ExpandConcat(a[1..], b);
    }
  }

  /** Row `i` of the input occupies the `QTD_i` consecutive positions that
      start after the labels of the rows before it. */
  lemma ExpandPositions(rows: seq<Label>, i: nat, j: nat)
    requires i < |rows| && j < rows[i].qtd
    ensures SumQtd(rows[..i]) + j < |Expand(rows)|
    ensures Expand(rows)[SumQtd(rows[..i]) + j] == rows[i]
  {
    assert rows == rows[..i] + ([rows[i]] + rows[i + 1..]);
    ExpandConcat(rows[..i], [rows[i]] + rows[i + 1..]);
    ExpandConcat([rows[i]], rows[i + 1..]);
    assert Expand([rows[i]]) == Repeat(rows[i], rows[i].qtd) by {
      assert [rows[i]][1..] == [];
    }
  }

  /** Each distinct row occurs `QTD` times as often in the expanded table as
      in the input: a row with `QTD = 0` disappears. */
  lemma {:induction false} ExpandCount(rows: seq<Label>, x: Label)
    ensures multiset(Expand(rows))[x] == multiset(rows)[x] * x.qtd
  {
    if |rows| > 0 {
      var rest := Expand(rows[1..]);
      var rep := Repeat(rows[0], rows[0].qtd);
      var c := multiset(rows[1..])[x];
      ExpandCount(rows[1..], x);
      RepeatCount(rows[0], rows[0].qtd, x);
      HeadCount(rows, x);
      ConcatCount(rep, rest, x);
      if x == rows[0] {
        MulSucc(c, x.qtd);
      }
    }
  }

  lemma HeadCount<T>(s: seq<T>, x: T)
    requires |s| > 0
    ensures multiset(s)[x] == (if x == s[0] then 1 else 0) + multiset(s[1..])[x]
  {
    assert s == [s[0]] + s[1..];
  }

  lemma ConcatCount<T>(a: seq<T>, b: seq<T>, x: T)
    ensures multiset(a + b)[x] == multiset(a)[x] + multiset(b)[x]
  {
  }

  lemma MulSucc(c: nat, q: nat)
    ensures (c + 1) * q == q + c * q
  {
  }

  /** A row appears in the expanded table exactly when it appears in the
      input with a positive quantity. */
  lemma ExpandMembers(rows: seq<Label>, x: Label)
    ensures x in Expand(rows) <==> x in rows && x.qtd > 0
  {
    ExpandCount(rows, x);
  }

  lemma {:induction false} RepeatCount(l: Label, n: nat, x: Label)
    ensures multiset(Repeat(l, n))[x] == if x == l then n else 0
  {
    if n > 0 {
      RepeatCount(l, n - 1, x);
    }
  }

  /** The repetition written as a loop over the input rows, appending each
      row `QTD` times. */
  method ExpandRows(rows: seq<Label>) returns (out: seq<Label>)
    ensures out == Expand(rows)
    ensures |out| == SumQtd(rows)
  {
    out := [];
    var i := 0;
    while i < |rows|
      invariant 0 <= i <= |rows|
      invariant out == Expand(rows[..i])
    {
      var k := 0;
      while k < rows[i].qtd
        invariant 0 <= k <= rows[i].qtd
        invariant out == Expand(rows[..i]) + Repeat(rows[i], k)
      {
        out := out + [rows[i]];
        k := k + 1;
        assert Repeat(rows[i], k) == Repeat(rows[i], k - 1) + [rows[i]];
      }
      assert rows[..i + 1] == rows[..i] + [rows[i]];
      ExpandConcat(rows[..i], [rows[i]]);
      assert Expand([rows[i]]) == Repeat(rows[i], rows[i].qtd) by {
        assert [rows[i]][1..] == [];
      }
      i := i + 1;
    }
    assert rows[..i] == rows;
  }
}
