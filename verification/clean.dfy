/** The batch normaliser (`clean_data` in `main.py`): each loaded row gains a
    parsed filing date and its year, and its claim value becomes a number
    (0 when missing or unparsable). No row is dropped. */
module Clean {
  import opened Common
  import opened Dates
  import opened Numbers
  import opened Loader

  /** A loaded row with the derived columns. */
  datatype CleanRow = CleanRow(
    row: Row,
    dataDistribuicaoDt: Option<Date>,
    anoDistribuicao: Option<int>,
    valorCausa: real)

  /** Either the cleaned table, or the `KeyError` raised when a non-empty
      table has no such column at all (no case object carried the key). */
  datatype CleanResult = Cleaned(rows: seq<CleanRow>) | KeyError(column: string)

  /** `data_distribuicao_dt`: only text can be a `DD/MM/YYYY` date. */
  function DistributionDate(f: Field): (d: Option<Date>)
    ensures d.Some? ==> ValidDate(d.value) && f == Text(FormatDate(d.value))
    ensures f.Text? && ParseDate(f.s).Some? ==> d.Some?
  {
    match f
    case Text(s) => ParseDate(s)
    case _ => None
  }

  /** `pd.to_numeric(valor_causa, errors='coerce').fillna(0)` for one cell:
      numbers are kept as they are (negative ones too), text is parsed with
      no comma handling, and anything else becomes 0. */
  function ClaimValue(f: Field): (v: real)
    ensures f.Number? ==> v == f.x
    ensures f.Text? && ParseNumber(f.s).Some? ==> v == ParseNumber(f.s).value
    ensures f.Absent? || f.Null? || (f.Text? && ParseNumber(f.s).None?) ==> v == 0.0
  {
    match f
    case Number(x) => x
    case Text(s) => (match ParseNumber(s) case Some(x) => x case None => 0.0)
    case _ => 0.0
  }

  function CleanRowOf(r: Row): CleanRow
  {
    var dt := DistributionDate(r.c.dataDistribuicao);
    CleanRow(r, dt, if dt.Some? then Some(dt.value.year) else None, ClaimValue(r.c.valorCausa))
  }

  /** The DataFrame has a `data_distribuicao` column: some case carried the key. */
  predicate HasDateColumn(rows: seq<Row>)
  {
    exists k :: 0 <= k < |rows| && !rows[k].c.dataDistribuicao.Absent?
  }

  predicate HasClaimColumn(rows: seq<Row>)
  {
    exists k :: 0 <= k < |rows| && !rows[k].c.valorCausa.Absent?
  }

  /** `clean_data`. */
  function CleanData(rows: seq<Row>): (res: CleanResult)
    ensures rows == [] ==> res == Cleaned([])
    ensures res.KeyError? <==> rows != [] && !(HasDateColumn(rows) && HasClaimColumn(rows))
    ensures res.KeyError? ==>
              res.column == (if HasDateColumn(rows) then "valor_causa" else "data_distribuicao")
    ensures res.Cleaned? ==> |res.rows| == |rows|
    ensures res.Cleaned? ==> forall k :: 0 <= k < |rows| ==>
              res.rows[k].row == rows[k] &&
              res.rows[k].dataDistribuicaoDt == DistributionDate(rows[k].c.dataDistribuicao) &&
              (res.rows[k].anoDistribuicao.Some? <==> res.rows[k].dataDistribuicaoDt.Some?) &&
              (res.rows[k].anoDistribuicao.Some? ==>
                 res.rows[k].anoDistribuicao.value == res.rows[k].dataDistribuicaoDt.value.year) &&
              res.rows[k].valorCausa == ClaimValue(rows[k].c.valorCausa)
  {
    if rows == [] then Cleaned([])
    else if !HasDateColumn(rows) then KeyError("data_distribuicao")
    else if !HasClaimColumn(rows) then KeyError("valor_causa")
    else Cleaned(seq(|rows|, k requires 0 <= k < |rows| => CleanRowOf(rows[k])))
  }

  /** A filing date that is well formed but not a calendar day leaves the row
      in place with a null date and a null year. */
  lemma InvalidDateKeepsRow(before: seq<Row>, r: Row, after: seq<Row>)
    requires r.c.dataDistribuicao == Text(FormatDate(Date(2024, 2, 31)))
    requires HasClaimColumn(before + [r] + after)
    ensures CleanData(before + [r] + after).Cleaned?
    ensures var out := CleanData(before + [r] + after).rows;
            |out| == |before| + 1 + |after| &&
            out[|before|].row == r &&
            out[|before|].dataDistribuicaoDt.None? && out[|before|].anoDistribuicao.None?
  {
    var rows := before + [r] + after;
    assert rows[|before|] == r;
    assert HasDateColumn(rows);
    ThirtyFirstOfFebruaryIsNull();
  }

  /** The batch step does no comma handling: an amount written with a
      decimal comma and no point becomes 0. */
  lemma DecimalCommaIsZero(s: string)
    requires ',' in s && '.' !in s
    ensures ClaimValue(Text(s)) == 0.0
  {
    CommaWithoutPointIsNaN(s);
  }

  /** A negative amount is kept as it is; null and missing become 0. */
  lemma NegativeClaimKept()
    ensures ClaimValue(Text("-5")) == -5.0
    ensures ClaimValue(Null) == 0.0 && ClaimValue(Absent) == 0.0
  {
    ParseShowNat(5);
    assert ShowNat(5) == "5";
    ParseNumberMinus("5");
  }
}
