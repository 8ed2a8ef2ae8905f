/** Grouping the expanded rows by `OF_NUMERO` (app.py:68, 77):
    `df.groupby('OF_NUMERO')` with pandas' defaults, which visit the keys in
    ascending order and leave out rows whose key is missing. */
module Grouping {
  import opened Wrappers
  import opened Labels

  /** Strict lexicographic order on strings by code point, Python's `<` on
      `str`. */
  predicate Less(a: string, b: string)
    decreases |a|
  {
    if |a| == 0 then |b| > 0
    else if |b| == 0 then false
    else a[0] < b[0] || (a[0] == b[0] && Less(a[1..], b[1..]))
  }

  lemma {:induction false} LessIrreflexive(a: string)
    ensures !Less(a, a)
    decreases |a|
  {
    if |a| > 0 {
      LessIrreflexive(a[1..]);
    }
  }

  lemma {:induction false} LessTransitive(a: string, b: string, c: string)
    requires Less(a, b) && Less(b, c)
    ensures Less(a, c)
    decreases |a|
  {
    if |a| > 0 && a[0] == b[0] && b[0] == c[0] {
      LessTransitive(a[1..], b[1..], c[1..]);
    }
  }

  lemma {:induction false} LessTotal(a: string, b: string)
    requires a != b
    ensures Less(a, b) || Less(b, a)
    decreases |a|
  {
    if |a| > 0 && |b| > 0 && a[0] == b[0] {
      assert a == [a[0]] + a[1..] && b == [b[0]] + b[1..];
      LessTotal(a[1..], b[1..]);
    }
  }

  /** Strictly ascending, hence without repetitions. */
  predicate StrictlySorted(ks: seq<string>) {
    forall i, j :: 0 <= i < j < |ks| ==> Less(ks[i], ks[j])
  }

  lemma SortedDistinct(ks: seq<string>, i: nat, j: nat)
    requires StrictlySorted(ks) && i < j < |ks|
    ensures ks[i] != ks[j]
  {
    LessIrreflexive(ks[i]);
  }

  /** Inserts `k` into an ascending list of keys, unless it is already there. */
  function Insert(k: string, ks: seq<string>): (r: seq<string>)
    requires StrictlySorted(ks)
    ensures StrictlySorted(r)
    ensures forall x :: x in r <==> x == k || x in ks
  {
    if |ks| == 0 then [k]
    else if k == ks[0] then ks
    else if Less(k, ks[0]) then
      assert forall j :: 0 < j < |ks| ==> Less(k, ks[j]) by {
        forall j | 0 < j < |ks| ensures Less(k, ks[j]) {
          LessTransitive(k, ks[0], ks[j]);
        }
      }
      [k] + ks
    else
      LessTotal(k, ks[0]);
      var rest := Insert(k, ks[1..]);
      assert forall x :: x in ks <==> x == ks[0] || x in ks[1..];
      assert forall j :: 0 <= j < |rest| ==> Less(ks[0], rest[j]) by {
        forall j | 0 <= j < |rest| ensures Less(ks[0], rest[j]) {
          if rest[j] != k {
            assert rest[j] in ks[1..];
            var m :| 0 <= m < |ks[1..]| && ks[1..][m] == rest[j];
            assert ks[m + 1] == rest[j];
          }
        }
      }
      [ks[0]] + rest
  }

  predicate HasKey(l: Label, k: string) {
    l.ofNumero == Some(k)
  }

  /** The distinct `OF_NUMERO` values present in the rows, ascending. */
  function Keys(rows: seq<Label>): (ks: seq<string>)
    ensures StrictlySorted(ks)
    ensures forall k :: k in ks <==> exists i :: 0 <= i < |rows| && HasKey(rows[i], k)
  {
    if |rows| == 0 then []
    else
      var rest := Keys(rows[1..]);
      assert forall k :: (exists i :: 0 < i < |rows| && HasKey(rows[i], k)) ==> k in rest by {
        forall k | exists i :: 0 < i < |rows| && HasKey(rows[i], k) ensures k in rest {
          var i :| 0 < i < |rows| && HasKey(rows[i], k);
          assert HasKey(rows[1..][i - 1], k);
        }
      }
      if rows[0].ofNumero.Some? then Insert(rows[0].ofNumero.value, rest) else rest
  }

  /** The rows of the group with key `k`, in their original order. */
  function Members(rows: seq<Label>, k: string): (g: seq<Label>)
    ensures |g| <= |rows|
    ensures forall i :: 0 <= i < |g| ==> HasKey(g[i], k)
  {
    if |rows| == 0 then []
    else (if HasKey(rows[0], k) then [rows[0]] else []) + Members(rows[1..], k)
  }

  /** `a` is `b` with some elements left out, the rest kept in order. */
  predicate IsSubsequence(a: seq<Label>, b: seq<Label>)
    decreases |b|
  {
    if |a| == 0 then true
    else if |b| == 0 then false
    else (a[0] == b[0] && IsSubsequence(a[1..], b[1..])) || IsSubsequence(a, b[1..])
  }

  /** A group keeps the relative order of its rows. */
  lemma {:induction false} MembersInOrder(rows: seq<Label>, k: string)
    ensures IsSubsequence(Members(rows, k), rows)
  {
    if |rows| > 0 {
      MembersInOrder(rows[1..], k);
      if HasKey(rows[0], k) {
        assert Members(rows, k)[1..] == Members(rows[1..], k);
      } else {
        assert Members(rows, k) == Members(rows[1..], k);
      }
    }
  }

  /** A group holds every row with its key, as often as the rows hold it,
      and nothing else. */
  lemma {:induction false} MembersCount(rows: seq<Label>, k: string, x: Label)
    ensures multiset(Members(rows, k))[x] == if HasKey(x, k) then multiset(rows)[x] else 0
  {
    if |rows| > 0 {
      MembersCount(rows[1..], k, x);
      assert rows == [rows[0]] + rows[1..];
      var head: seq<Label> := if HasKey(rows[0], k) then [rows[0]] else [];
      assert multiset(head + Members(rows[1..], k)) == multiset(head) + multiset(Members(rows[1..], k));
    }
  }

  /** One output group: its key and its rows. */
  datatype Group = Group(key: string, rows: seq<Label>)

  function GroupsFor(rows: seq<Label>, ks: seq<string>): (gs: seq<Group>)
    ensures |gs| == |ks|
    ensures forall j :: 0 <= j < |gs| ==> gs[j] == Group(ks[j], Members(rows, ks[j]))
  {
    if |ks| == 0 then [] else [Group(ks[0], Members(rows, ks[0]))] + GroupsFor(rows, ks[1..])
  }

  /** The groups `groupby` visits: one per distinct key, keys ascending. */
  function GroupBy(rows: seq<Label>): (gs: seq<Group>)
    ensures |gs| == |Keys(rows)|
  {
    GroupsFor(rows, Keys(rows))
  }

  /** All rows of the groups, group after group. */
  function Flatten(gs: seq<Group>): seq<Label> {
    if |gs| == 0 then [] else gs[0].rows + Flatten(gs[1..])
  }

  /** The rows `groupby` keeps: those with a present key. */
  function Keyed(rows: seq<Label>): seq<Label> {
    if |rows| == 0 then []
    else (if rows[0].ofNumero.Some? then [rows[0]] else []) + Keyed(rows[1..])
  }

  lemma {:induction false} KeyedCount(rows: seq<Label>, x: Label)
    ensures multiset(Keyed(rows))[x] == if x.ofNumero.Some? then multiset(rows)[x] else 0
  {
    if |rows| > 0 {
      KeyedCount(rows[1..], x);
      assert rows == [rows[0]] + rows[1..];
      var head: seq<Label> := if rows[0].ofNumero.Some? then [rows[0]] else [];
      assert multiset(head + Keyed(rows[1..])) == multiset(head) + multiset(Keyed(rows[1..]));
    }
  }

  lemma {:induction false} FlattenCount(rows: seq<Label>, ks: seq<string>, x: Label)
    requires StrictlySorted(ks)
    ensures multiset(Flatten(GroupsFor(rows, ks)))[x] ==
      if x.ofNumero.Some? && x.ofNumero.value in ks then multiset(rows)[x] else 0
  {
    if |ks| > 0 {
      var gs := GroupsFor(rows, ks);
      assert GroupsFor(rows, ks[1..]) == gs[1..];
      FlattenCount(rows, ks[1..], x);
      MembersCount(rows, ks[0], x);
      assert multiset(gs[0].rows + Flatten(gs[1..])) == multiset(gs[0].rows) + multiset(Flatten(gs[1..]));
      assert forall j :: 0 < j < |ks| ==> ks[0] != ks[j] by {
        forall j | 0 < j < |ks| ensures ks[0] != ks[j] {
          SortedDistinct(ks, 0, j);
        }
      }
      assert forall y :: y in ks <==> y == ks[0] || y in ks[1..];
    }
  }

  /** The groups partition the rows that have a key: concatenated, they hold
      exactly those rows, each as often as the input holds it. */
  lemma GroupsPartition(rows: seq<Label>)
    ensures multiset(Flatten(GroupBy(rows))) == multiset(Keyed(rows))
    ensures |Flatten(GroupBy(rows))| == |Keyed(rows)|
  {
    var ks := Keys(rows);
    forall x
      ensures multiset(Flatten(GroupBy(rows)))[x] == multiset(Keyed(rows))[x]
    {
      FlattenCount(rows, ks, x);
      KeyedCount(rows, x);

    }
    assert multiset(Flatten(GroupBy(rows))) == multiset(Keyed(rows));
    assert |multiset(Flatten(GroupBy(rows)))| == |multiset(Keyed(rows))|;
  }

  /** Every row with a key lands in exactly one group: the one named by its
      key. Groups are never empty and their keys are pairwise different. */
  lemma GroupOfRow(rows: seq<Label>, i: nat)
    requires i < |rows| && rows[i].ofNumero.Some?
    ensures exists j :: (0 <= j < |GroupBy(rows)| && GroupBy(rows)[j].key == rows[i].ofNumero.value
      && rows[i] in GroupBy(rows)[j].rows)
    ensures forall j :: 0 <= j < |GroupBy(rows)| && rows[i] in GroupBy(rows)[j].rows ==>
      GroupBy(rows)[j].key == rows[i].ofNumero.value
  {
    var gs := GroupBy(rows);
    var ks := Keys(rows);
    var k := rows[i].ofNumero.value;
    assert HasKey(rows[i], k);
    assert k in ks;
    var j :| 0 <= j < |ks| && ks[j] == k;
    MembersCount(rows, k, rows[i]);
    assert rows[i] in gs[j].rows;
  }

  /** Groups are non-empty and their keys pairwise different. */
  lemma GroupsWellFormed(rows: seq<Label>)
    ensures forall j :: 0 <= j < |GroupBy(rows)| ==> |GroupBy(rows)[j].rows| > 0
    ensures forall j, j' :: 0 <= j < j' < |GroupBy(rows)| ==> GroupBy(rows)[j].key != GroupBy(rows)[j'].key
  {
    var gs := GroupBy(rows);
    var ks := Keys(rows);
    forall j | 0 <= j < |gs|
      ensures |gs[j].rows| > 0
    {
      assert ks[j] in ks;
      var i :| 0 <= i < |rows| && HasKey(rows[i], ks[j]);
      MembersCount(rows, ks[j], rows[i]);
    }
    forall j, j' | 0 <= j < j' < |gs|
      ensures gs[j].key != gs[j'].key
    {
      SortedDistinct(ks, j, j');
    }
  }
}
