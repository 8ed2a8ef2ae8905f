/** The per-row column derivation and the projection onto the fourteen
    output columns (app.py:34-55). */
module Labels {
  import opened Wrappers
  import opened Text
  import opened Price

  /** A spreadsheet cell: `None` is pandas' missing value (NaN), `Some(s)` a
      present value whose `str()` form is `s`. */
  type Cell = Option<string>

  /** One row of the `Dados` sheet, restricted to the columns the pipeline
      reads. The price is an exact amount of cents and the quantity a
      non-negative integer. */
  datatype Row = Row(
    planoProd: Cell,
    ofNumero: Cell,
    prodDescricao: Cell,
    prodCodigo: Cell,
    precoUnitPdv: Option<int>,
    largura: Cell,
    gradeTamanho: Cell,
    codigoBarras: Cell,
    qtd: nat,
    unidMedida: Cell)

  /** One row of the projected table, one field per output column. */
  datatype Label = Label(
    planoProd: Cell,
    ofNumero: Cell,
    prodDescricao: Cell,
    produto: string,
    descricao: string,
    prodCodigo: Cell,
    precoUnitPdv: string,
    largura: string,
    gradeTamanho: Cell,
    codigoBarras: Cell,
    qtd: nat,
    unidMedida: Cell,
    prodDesc: Cell,
    imagemModeloNew: string)

  /** The output columns, in the order the sheets list them. */
  const FinalColumns: seq<string> := [
    "PLANO_PROD", "OF_NUMERO", "PROD_DESCRICAO", "PRODUTO", "DESCRICAO",
    "PROD_CODIGO", "PRECO_UNIT_PDV", "LARGURA", "GRADE_TAMANHO",
    "CODIGO_BARRAS", "QTD", "UNID_MEDIDA", "PROD_DESC", "IMAGEM_MODELO_NEW"
  ]

  /** Length of the model code taken from the description. */
  const ModelCodeLength: nat := 9

  /** The folder the label images live in; the model code and `.jpg` follow. */
  const ImageFolder: string := "\\\\SERVER-DADOS\\Label\\CÓDIGOS\\H.Kuntzler\\JORGE BISCHOFF\\SAPATOS\\"

  /** `PRODUTO` and `DESCRICAO`: the description split at its first space.
      The first piece of `split(' ')` and the remaining pieces joined again
      by single spaces. */
  function SplitDescription(d: Cell): (r: (string, string))
    ensures d.None? ==> r == ("", "")
    ensures d.Some? && ' ' in d.value ==> r.0 + " " + r.1 == d.value && ' ' !in r.0
    ensures d.Some? && ' ' !in d.value ==> r == (d.value, "")
  {
    match d
    case None => ("", "")
    case Some(s) =>
      var parts := Split(s, ' ');
      JoinSplit(s, ' ');
      if ' ' in s then
        assert |parts| >= 2;
        (parts[0], Join(parts[1..], ' '))
      else
        SplitNoSeparator(s, ' ');
        (parts[0], Join(parts[1..], ' '))
  }

  /** `PROD_DESC`: the first nine characters of the description, or all of
      it when shorter; missing when the description is. */
  function ModelCode(d: Cell): (r: Cell)
    ensures r.None? <==> d.None?
    ensures d.Some? ==>
      && |r.value| <= ModelCodeLength
      && r.value <= d.value
      && (|r.value| < ModelCodeLength ==> r.value == d.value)
  {
    match d
    case None => None
    case Some(s) => Some(if |s| < ModelCodeLength then s else s[..ModelCodeLength])
  }

  /** `IMAGEM_MODELO_NEW`: the image file named after the model code inside
      the image folder; the empty string when the code is missing. */
  function ImagePath(code: Cell): (r: string)
    ensures r == "" <==> code.None?
    ensures code.Some? ==>
      && |r| == |ImageFolder| + |code.value| + 4
      && r[..|ImageFolder|] == ImageFolder
      && r[|ImageFolder|..|r| - 4] == code.value
      && r[|r| - 4..] == ".jpg"
  {
    match code
    case None => ""
    case Some(c) => ImageFolder + c + ".jpg"
  }

  /** `LARGURA`: a missing width becomes the empty string, any other value
      its string form. */
  function WidthText(w: Cell): (r: string)
    ensures w.None? ==> r == ""
    ensures w.Some? ==> r == w.value
  {
    match w
    case None => ""
    case Some(s) => s
  }

  /** The derived row, already restricted to the output columns. */
  function Derive(row: Row): (l: Label)
    ensures l.planoProd == row.planoProd && l.ofNumero == row.ofNumero
    ensures l.prodDescricao == row.prodDescricao && l.prodCodigo == row.prodCodigo
    ensures l.gradeTamanho == row.gradeTamanho && l.codigoBarras == row.codigoBarras
    ensures l.qtd == row.qtd && l.unidMedida == row.unidMedida
    ensures row.prodDescricao.Some? && ' ' in row.prodDescricao.value ==>
      l.produto + " " + l.descricao == row.prodDescricao.value
    ensures row.prodDescricao.Some? ==> l.prodDesc.Some? && l.prodDesc.value <= row.prodDescricao.value
    ensures l.imagemModeloNew == "" <==> row.prodDescricao.None?
    ensures l.precoUnitPdv == "" <==> row.precoUnitPdv.None?
    ensures row.precoUnitPdv.Some? ==> ParsePrice(l.precoUnitPdv) == row.precoUnitPdv
  {
    var (produto, descricao) := SplitDescription(row.prodDescricao);
    var code := ModelCode(row.prodDescricao);
    Label(
      row.planoProd, row.ofNumero, row.prodDescricao, produto, descricao,
      row.prodCodigo, PriceCell(row.precoUnitPdv), WidthText(row.largura),
      row.gradeTamanho, row.codigoBarras, row.qtd, row.unidMedida,
      code, ImagePath(code))
  }

  /** Every derived column is the value its own derivation gives: the split,
      the model code with its 9-character bound, the image path of that code,
      the price cell and the blanked width. */
  lemma DeriveColumns(row: Row)
    ensures (Derive(row).produto, Derive(row).descricao) == SplitDescription(row.prodDescricao)
    ensures Derive(row).prodDesc == ModelCode(row.prodDescricao)
    ensures row.prodDescricao.Some? ==> |Derive(row).prodDesc.value| <= ModelCodeLength
    ensures Derive(row).imagemModeloNew == ImagePath(Derive(row).prodDesc)
    ensures Derive(row).precoUnitPdv == PriceCell(row.precoUnitPdv)
    ensures Derive(row).largura == (if row.largura.None? then "" else row.largura.value)
  {
  }

  /** The cells of a projected row, in the order of `FinalColumns`. The
      quantity is printed as Python prints an integer. */
  function Cells(l: Label): (r: seq<Cell>)
    ensures |r| == |FinalColumns|
  {
    [ l.planoProd, l.ofNumero, l.prodDescricao, Some(l.produto), Some(l.descricao),
      l.prodCodigo, Some(l.precoUnitPdv), Some(l.largura), l.gradeTamanho,
      l.codigoBarras, Some(Digits(l.qtd)), l.unidMedida, l.prodDesc, Some(l.imagemModeloNew) ]
  }

  /** Column access by name, `df[name]` on the derived frame: `None` for a
      column the projection does not keep. */
  function Column(l: Label, name: string): Option<Cell> {
    match name
    case "PLANO_PROD" => Some(l.planoProd)
    case "OF_NUMERO" => Some(l.ofNumero)
    case "PROD_DESCRICAO" => Some(l.prodDescricao)
    case "PRODUTO" => Some(Some(l.produto))
    case "DESCRICAO" => Some(Some(l.descricao))
    case "PROD_CODIGO" => Some(l.prodCodigo)
    case "PRECO_UNIT_PDV" => Some(Some(l.precoUnitPdv))
    case "LARGURA" => Some(Some(l.largura))
    case "GRADE_TAMANHO" => Some(l.gradeTamanho)
    case "CODIGO_BARRAS" => Some(l.codigoBarras)
    case "QTD" => Some(Some(Digits(l.qtd)))
    case "UNID_MEDIDA" => Some(l.unidMedida)
    case "PROD_DESC" => Some(l.prodDesc)
    case "IMAGEM_MODELO_NEW" => Some(Some(l.imagemModeloNew))
    case _ => None
  }

  /** The projection keeps exactly the fourteen named columns, each once, in
      the listed order: the c-th cell is the column named `FinalColumns[c]`,
      and every other name is dropped. */
  lemma Projection(l: Label)
    ensures forall i, j :: 0 <= i < j < |FinalColumns| ==> FinalColumns[i] != FinalColumns[j]
    ensures forall c :: 0 <= c < |FinalColumns| ==> Column(l, FinalColumns[c]) == Some(Cells(l)[c])
    ensures forall name :: name !in FinalColumns ==> Column(l, name).None?
  {
  }
}
