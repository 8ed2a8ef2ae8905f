/** The whole transformation of `process_excel` (app.py:26-112): column
    check, derivation, projection, expansion, grouping and one sheet per
    group. Reading the workbook, writing `.xls` files and the archive are
    not part of this model. */
module Pipeline {
  import opened Wrappers
  import opened Labels
  import opened Expansion
  import opened Grouping
  import opened Sheets

  /** The `Dados` sheet as read: its column names and its rows. */
  datatype Table = Table(header: seq<string>, rows: seq<Row>)

  /** One generated spreadsheet: its file name and its grid of cells. */
  datatype File = File(name: string, sheet: Grid)

  /** What a successful run yields: the sheets and the expanded table. */
  datatype Output = Output(files: seq<File>, expanded: seq<Label>)

  /** The column lookup that failed, naming the missing columns. */
  datatype Error = MissingColumns(names: seq<string>)

  /** Input columns the projection copies without change. */
  const PassThroughColumns: seq<string> := [
    "PLANO_PROD", "OF_NUMERO", "PROD_CODIGO", "GRADE_TAMANHO",
    "CODIGO_BARRAS", "QTD", "UNID_MEDIDA"
  ]

  /** Every input column the run reads. */
  const RequiredColumns: seq<string> := ["PROD_DESCRICAO", "PRECO_UNIT_PDV", "LARGURA"] + PassThroughColumns

  /** The names among `names` that the header lacks, in order. */
  function Absent(names: seq<string>, header: seq<string>): (r: seq<string>)
    ensures forall n :: n in r <==> n in names && n !in header
  {
    if |names| == 0 then []
    else (if names[0] in header then [] else [names[0]]) + Absent(names[1..], header)
  }

  /** The column lookups in the order the source performs them: the
      description, the price and the width are read one at a time, then the
      projection asks for all remaining columns at once and reports every one
      it misses. */
  function CheckColumns(header: seq<string>): (r: Option<Error>)
    ensures r.None? <==> forall c :: c in RequiredColumns ==> c in header
    ensures r.Some? ==> |r.value.names| > 0
    ensures r.Some? ==> forall n :: n in r.value.names ==> n in RequiredColumns && n !in header
  {
    assert forall c :: c in RequiredColumns <==>
      c in ["PROD_DESCRICAO", "PRECO_UNIT_PDV", "LARGURA"] || c in PassThroughColumns;
    if "PROD_DESCRICAO" !in header then Some(MissingColumns(["PROD_DESCRICAO"]))
    else if "PRECO_UNIT_PDV" !in header then Some(MissingColumns(["PRECO_UNIT_PDV"]))
    else if "LARGURA" !in header then Some(MissingColumns(["LARGURA"]))
    else
      var missing := Absent(PassThroughColumns, header);
      if |missing| == 0 then None
      else
        assert missing[0] in missing;
        Some(MissingColumns(missing))
  }

  /** The name of the file written for a group, `f"{of_numero}.xls"`. */
  function FileName(key: string): string {
    key + ".xls"
  }

  lemma FileNameInjective(a: string, b: string)
    requires FileName(a) == FileName(b)
    ensures a == b
  {
    assert a == FileName(a)[..|a|];
    assert b == FileName(b)[..|b|];
  }

  function DeriveAll(rows: seq<Row>): (r: seq<Label>)
    ensures |r| == |rows|
    ensures forall i :: 0 <= i < |rows| ==> r[i] == Derive(rows[i])
  {
    seq(|rows|, i requires 0 <= i < |rows| => Derive(rows[i]))
  }

  /** One file per group, in the order the groups are visited. */
  function FilesFor(gs: seq<Group>): (fs: seq<File>)
    ensures |fs| == |gs|
    ensures forall j :: 0 <= j < |gs| ==> fs[j] == File(FileName(gs[j].key), Layout(gs[j].rows))
  {
    if |gs| == 0 then [] else [File(FileName(gs[0].key), Layout(gs[0].rows))] + FilesFor(gs[1..])
  }

  /** The number of data lines (all lines but the header) over all files. */
  function DataLines(fs: seq<File>): int {
    if |fs| == 0 then 0 else |fs[0].sheet| - 1 + DataLines(fs[1..])
  }

  /** Total quantity asked for by the input rows. */
  function TotalQtd(rows: seq<Row>): nat {
    if |rows| == 0 then 0 else rows[0].qtd + TotalQtd(rows[1..])
  }

  /** The run once every column is present: derive and project the rows,
      expand them and write one sheet per `OF_NUMERO`. */
  function Run(rows: seq<Row>): (o: Output)
    ensures |o.expanded| == TotalQtd(rows)
    ensures forall f :: f in o.files ==> |f.sheet| >= 2 && f.sheet[0] == FinalColumns
  {
    var labels := DeriveAll(rows);
    var expanded := Expand(labels);
    TotalQtdDerived(rows);
    GroupsWellFormed(expanded);
    Output(FilesFor(GroupBy(expanded)), expanded)
  }

  /** The run: fails when a column it reads is missing, otherwise runs on
      the rows. */
  function Process(t: Table): (r: Result<Output, Error>)
    ensures r.Failure? <==> exists c :: c in RequiredColumns && c !in t.header
    ensures r.Failure? ==> forall n :: n in r.error.names ==> n in RequiredColumns && n !in t.header
    ensures r.Success? ==> r.value == Run(t.rows)
    ensures r.Success? ==> |r.value.expanded| == TotalQtd(t.rows)
    ensures r.Success? ==> forall f :: f in r.value.files ==> |f.sheet| >= 2 && f.sheet[0] == FinalColumns
  {
    match CheckColumns(t.header)
    case Some(e) => Failure(e)
    case None => Success(Run(t.rows))
  }

  /** Deriving keeps every row's quantity, so the labels ask for as many
      copies as the input rows. */
  lemma {:induction false} TotalQtdDerived(rows: seq<Row>)
    ensures SumQtd(DeriveAll(rows)) == TotalQtd(rows)
  {
    if |rows| > 0 {
      TotalQtdDerived(rows[1..]);
      assert DeriveAll(rows)[1..] == DeriveAll(rows[1..]);
    }
  }

  /* ---------- Grouping commutes with expansion ---------- */

  lemma {:induction false} MembersConcat(a: seq<Label>, b: seq<Label>, k: string)
    ensures Members(a + b, k) == Members(a, k) + Members(b, k)
  {
    if |a| == 0 {
      assert a + b == b;
    } else {
      assert (a + b)[1..] == a[1..] + b;
      MembersConcat(a[1..], b, k);
    }
  }

  lemma {:induction false} MembersRepeat(l: Label, n: nat, k: string)
    ensures Members(Repeat(l, n), k) == if HasKey(l, k) then Repeat(l, n) else []
  {
    if n > 0 {
      MembersRepeat(l, n - 1, k);
      MembersConcat(Repeat(l, n - 1), [l], k);
      assert Members([l], k) == if HasKey(l, k) then [l] else [] by {
        assert [l][1..] == [];
      }
    }
  }

  /** Grouping the expanded table gives the expansion of each group: the
      group of a key holds the rows with that key, each repeated `QTD`
      times, in input order. */
  lemma {:induction false} GroupOfExpansion(labels: seq<Label>, k: string)
    ensures Members(Expand(labels), k) == Expand(Members(labels, k))
  {
    if |labels| > 0 {
      var l := labels[0];
      GroupOfExpansion(labels[1..], k);
      MembersConcat(Repeat(l, l.qtd), Expand(labels[1..]), k);
      MembersRepeat(l, l.qtd, k);
      if HasKey(l, k) {
        assert Members(labels, k) == [l] + Members(labels[1..], k);
        ExpandConcat([l], Members(labels[1..], k));
        assert Expand([l]) == Repeat(l, l.qtd) by {
          assert [l][1..] == [];
        }
      } else {
        assert Members(labels, k) == Members(labels[1..], k);
      }
    }
  }

  /* ---------- Properties of a run ---------- */

  lemma {:induction false} DataLinesFlatten(gs: seq<Group>)
    ensures DataLines(FilesFor(gs)) == |Flatten(gs)|
  {
    if |gs| > 0 {
      DataLinesFlatten(gs[1..]);
      assert FilesFor(gs)[1..] == FilesFor(gs[1..]);
    }
  }

  /** The facts about a run that the file lemmas use. */
  lemma RunShape(rows: seq<Row>)
    ensures Run(rows).expanded == Expand(DeriveAll(rows))
    ensures Run(rows).files == FilesFor(GroupBy(Run(rows).expanded))
  {
  }

  /** Only keys asked for by the input get a file. */
  lemma FileHasRow(rows: seq<Row>, k: string, j: nat)
    requires j < |Run(rows).files| && Run(rows).files[j].name == FileName(k)
    ensures exists i :: 0 <= i < |rows| && rows[i].ofNumero == Some(k) && rows[i].qtd > 0
  {
    RunShape(rows);
    FileHasLabel(DeriveAll(rows), k, j);
    var i :| 0 <= i < |rows| && DeriveAll(rows)[i].ofNumero == Some(k) && DeriveAll(rows)[i].qtd > 0;
    DeriveKeeps(rows, i);
  }

  lemma FileHasLabel(labels: seq<Label>, k: string, j: nat)
    requires j < |FilesFor(GroupBy(Expand(labels)))|
    requires FilesFor(GroupBy(Expand(labels)))[j].name == FileName(k)
    ensures exists i :: 0 <= i < |labels| && labels[i].ofNumero == Some(k) && labels[i].qtd > 0
  {
    var expanded := Expand(labels);
    var ks := Keys(expanded);
    FileNameInjective(ks[j], k);
    assert ks[j] in ks;
    var m :| 0 <= m < |expanded| && HasKey(expanded[m], k);
    ExpandMembers(labels, expanded[m]);
    var i :| 0 <= i < |labels| && labels[i] == expanded[m];
    assert labels[i].ofNumero == Some(k) && labels[i].qtd > 0;
  }

  /** Deriving a row keeps its group key and its quantity. */
  lemma DeriveKeeps(rows: seq<Row>, i: nat)
    requires i < |rows|
    ensures DeriveAll(rows)[i].ofNumero == rows[i].ofNumero
    ensures DeriveAll(rows)[i].qtd == rows[i].qtd
  {
  }

  /** Every key some input row asks labels for gets a file. */
  lemma RowHasFile(rows: seq<Row>, i: nat)
    requires i < |rows| && rows[i].ofNumero.Some? && rows[i].qtd > 0
    ensures exists j :: 0 <= j < |Run(rows).files| && Run(rows).files[j].name == FileName(rows[i].ofNumero.value)
  {
    RunShape(rows);
    DeriveKeeps(rows, i);
    LabelHasFile(DeriveAll(rows), i);
  }

  lemma LabelHasFile(labels: seq<Label>, i: nat)
    requires i < |labels| && labels[i].ofNumero.Some? && labels[i].qtd > 0
    ensures exists j :: (0 <= j < |FilesFor(GroupBy(Expand(labels)))| &&
      FilesFor(GroupBy(Expand(labels)))[j].name == FileName(labels[i].ofNumero.value))
  {
    var k := labels[i].ofNumero.value;
    var expanded := Expand(labels);
    var ks := Keys(expanded);
    ExpandMembers(labels, labels[i]);
    var m :| 0 <= m < |expanded| && expanded[m] == labels[i];
    assert HasKey(expanded[m], k);
    assert k in ks;
    var j :| 0 <= j < |ks| && ks[j] == k;
    assert FilesFor(GroupBy(expanded))[j].name == FileName(k);
  }

  /** A run writes a file named `k.xls` exactly when some input
      row with `OF_NUMERO = k` asks for at least one label; the names are
      pairwise different. */
  lemma FilesPerKey(rows: seq<Row>, k: string)
    ensures (exists j :: 0 <= j < |Run(rows).files| && Run(rows).files[j].name == FileName(k))
        <==> (exists i :: 0 <= i < |rows| && rows[i].ofNumero == Some(k) && rows[i].qtd > 0)
    ensures forall j, j' :: 0 <= j < j' < |Run(rows).files| ==>
      Run(rows).files[j].name != Run(rows).files[j'].name
  {
    RunShape(rows);
    var fs := Run(rows).files;
    var gs := GroupBy(Run(rows).expanded);
    GroupsWellFormed(Run(rows).expanded);
    forall j, j' | 0 <= j < j' < |fs|
      ensures fs[j].name != fs[j'].name
    {
      if fs[j].name == fs[j'].name {
        FileNameInjective(gs[j].key, gs[j'].key);
      }
    }
    if exists j :: 0 <= j < |fs| && fs[j].name == FileName(k) {
      var j :| 0 <= j < |fs| && fs[j].name == FileName(k);
      FileHasRow(rows, k, j);
    }
    if exists i :: 0 <= i < |rows| && rows[i].ofNumero == Some(k) && rows[i].qtd > 0 {
      var i :| 0 <= i < |rows| && rows[i].ofNumero == Some(k) && rows[i].qtd > 0;
      RowHasFile(rows, i);
    }
  }

  /** The file of a group has one data line per label its rows ask for, and
      the data lines over all files add up to the expanded rows that have an
      `OF_NUMERO`. */
  lemma FileSizes(rows: seq<Row>)
    ensures forall j :: 0 <= j < |Run(rows).files| ==>
      |Run(rows).files[j].sheet| - 1 == SumQtd(Members(DeriveAll(rows), Keys(Run(rows).expanded)[j]))
    ensures DataLines(Run(rows).files) == |Keyed(Run(rows).expanded)|
  {
    var labels := DeriveAll(rows);
    var expanded := Expand(labels);
    var gs := GroupBy(expanded);
    assert Run(rows).files == FilesFor(gs);
    forall j | 0 <= j < |gs|
      ensures |FilesFor(gs)[j].sheet| - 1 == SumQtd(Members(labels, Keys(expanded)[j]))
    {
      GroupOfExpansion(labels, Keys(expanded)[j]);
    }
    DataLinesFlatten(gs);
    GroupsPartition(expanded);
  }

  /** Two rows, `OF_NUMERO` `A` with `QTD = 2` and `B` with `QTD = 1`: the run
      succeeds with three expanded rows, `A.xls` with two data lines and
      `B.xls` with one. */
  lemma TwoOrders(a: Row, b: Row)
    requires a.ofNumero == Some("A") && a.qtd == 2
    requires b.ofNumero == Some("B") && b.qtd == 1
    ensures Process(Table(RequiredColumns, [a, b])) == Success(Run([a, b]))
    ensures var o := Run([a, b]);
      && |o.expanded| == 3
      && |o.files| == 2
      && o.files[0].name == "A.xls" && |o.files[0].sheet| == 3
      && o.files[1].name == "B.xls" && |o.files[1].sheet| == 2
  {
    var la, lb := Derive(a), Derive(b);
    assert DeriveAll([a, b]) == [la, lb];
    TwoOrdersExpand(la, lb);
    TwoOrdersGroups(la, lb);
    var gs := GroupBy([la, la, lb]);
    assert gs == [Group("A", [la, la]), Group("B", [lb])];
    assert FileName("A") == "A.xls" && FileName("B") == "B.xls";
    FullHeader(Table(RequiredColumns, [a, b]));
  }

  /** With every column present the run succeeds. */
  lemma FullHeader(t: Table)
    requires t.header == RequiredColumns
    ensures Process(t) == Success(Run(t.rows))
  {
    assert CheckColumns(t.header).None?;
  }

  lemma TwoOrdersExpand(la: Label, lb: Label)
    requires la.qtd == 2 && lb.qtd == 1
    ensures Expand([la, lb]) == [la, la, lb]
  {
    assert [la, lb][1..] == [lb];
    assert Expand([lb]) == [lb] by {
      assert [lb][1..] == [];
      assert Repeat(lb, 1) == [lb];
    }
    assert Repeat(la, 2) == [la, la];
  }

  lemma TwoOrdersGroups(la: Label, lb: Label)
    requires la.ofNumero == Some("A") && lb.ofNumero == Some("B")
    ensures Keys([la, la, lb]) == ["A", "B"]
    ensures Members([la, la, lb], "A") == [la, la]
    ensures Members([la, la, lb], "B") == [lb]
  {
    var e := [la, la, lb];
    assert e[1..] == [la, lb] && e[1..][1..] == [lb] && e[1..][1..][1..] == [];
    assert Keys([lb]) == ["B"];
    assert Less("A", "B");
    assert Keys([la, lb]) == ["A", "B"];
    assert Members([lb], "A") == [] && Members([lb], "B") == [lb];
    assert Members([la, lb], "A") == [la] && Members([la, lb], "B") == [lb];
  }
}
