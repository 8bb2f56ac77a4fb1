/** The interactive viewer (`app.py`): how it normalises the consolidated table
    when loading it, the initial selections of its tribunal and year pickers,
    the chain of filters, the four indicators computed over the filtered rows,
    and the detail table sorted by claim value. */
module Dashboard {
  import opened Common
  import opened Dates
  import opened Numbers

  /** A row of the consolidated CSV as the viewer reads it: text cells (None
      for an empty cell); the year and claim columns are given as the text
      `astype(str)` produces for them. */
  datatype CsvRow = CsvRow(
    cpfConsulta: Option<string>,
    numeroProcesso: Option<string>,
    assunto: Option<string>,
    classe: Option<string>,
    tribunal: Option<string>,
    dataDistribuicao: Option<string>,
    anoText: string,
    valorText: string,
    partesPoloPassivo: Option<string>)

  /** A row of the viewer's table after normalisation. */
  datatype AppRow = AppRow(
    cpfConsulta: Option<string>,
    numeroProcesso: Option<string>,
    assunto: Option<string>,
    classe: Option<string>,
    tribunal: Option<string>,
    dataDistribuicao: Option<string>,
    dataDistribuicaoDt: Option<Date>,
    anoDistribuicao: string,
    valorCausa: real,
    partesPoloPassivo: Option<string>)

  /** The venue the viewer prefers. */
  const PreferredTribunal: string := "TJGO"

  // -------------------------------------------------------- normalisation

  /** The three column rewrites of the viewer's load step. */
  function NormalizeRow(c: CsvRow): (a: AppRow)
    ensures a.dataDistribuicaoDt.Some? ==>
              ValidDate(a.dataDistribuicaoDt.value) &&
              c.dataDistribuicao == Some(FormatDate(a.dataDistribuicaoDt.value))
    ensures c.dataDistribuicao.Some? && ParseDate(c.dataDistribuicao.value).Some? ==>
              a.dataDistribuicaoDt.Some?
    ensures ',' !in c.valorText ==>
              a.valorCausa == (match ParseNumber(c.valorText) case Some(x) => x case None => 0.0)
    ensures a.valorCausa == AppClaimValue(c.valorText)
    ensures a.anoDistribuicao == YearLabel(c.anoText)
    ensures a.cpfConsulta == c.cpfConsulta && a.tribunal == c.tribunal && a.classe == c.classe &&
            a.assunto == c.assunto && a.partesPoloPassivo == c.partesPoloPassivo &&
            a.numeroProcesso == c.numeroProcesso && a.dataDistribuicao == c.dataDistribuicao
  {
    var dt := match c.dataDistribuicao case Some(s) => ParseDate(s) case None => None;
    AppClaimWithoutComma(c.valorText);
    AppRow(c.cpfConsulta, c.numeroProcesso, c.assunto, c.classe, c.tribunal,
           c.dataDistribuicao, dt, YearLabel(c.anoText), AppClaimValue(c.valorText),
           c.partesPoloPassivo)
  }

  /** The viewer's table: every CSV row, normalised, in file order. */
  function LoadTable(csv: seq<CsvRow>): (df: seq<AppRow>)
    ensures |df| == |csv|
    ensures forall k :: 0 <= k < |csv| ==> df[k] == NormalizeRow(csv[k])
  {
    seq(|csv|, k requires 0 <= k < |csv| => NormalizeRow(csv[k]))
  }

  // ---------------------------------------------------------------- filters

  /** The sidebar's inputs: two free-text searches ("" when unset) and four
      multi-selections ([] when unset). */
  datatype Filters = Filters(
    searchCpf: string,
    searchPassivo: string,
    tribunais: seq<string>,
    anos: seq<string>,
    classes: seq<string>,
    assuntos: seq<string>)

  /** `Series.isin(values)` on one cell: a null cell is in no selection. */
  predicate CellIn(cell: Option<string>, values: seq<string>)
  {
    cell.Some? && cell.value in values
  }

  function CpfMask(q: string): AppRow -> bool { (r: AppRow) => TextContains(r.cpfConsulta, q) }
  function PassivoMask(q: string): AppRow -> bool { (r: AppRow) => TextContains(r.partesPoloPassivo, q) }
  function TribunalMask(vs: seq<string>): AppRow -> bool { (r: AppRow) => CellIn(r.tribunal, vs) }
  function AnoMask(vs: seq<string>): AppRow -> bool { (r: AppRow) => r.anoDistribuicao in vs }
  function ClasseMask(vs: seq<string>): AppRow -> bool { (r: AppRow) => CellIn(r.classe, vs) }
  function AssuntoMask(vs: seq<string>): AppRow -> bool { (r: AppRow) => CellIn(r.assunto, vs) }

  /** One `if input: filtered_df = filtered_df[mask]` step. */
  function Narrow(rows: seq<AppRow>, active: bool, mask: AppRow -> bool): (r: seq<AppRow>)
    ensures |r| <= |rows|
  {
    if active then Keep(rows, mask) else rows
  }

  /** The filter chain: each input that is set narrows the previous result. */
  function ApplyFilters(df: seq<AppRow>, f: Filters): (r: seq<AppRow>)
    ensures |r| <= |df|
  {
    var a := Narrow(df, f.searchCpf != "", CpfMask(f.searchCpf));
    var b := Narrow(a, f.searchPassivo != "", PassivoMask(f.searchPassivo));
    var c := Narrow(b, |f.tribunais| > 0, TribunalMask(f.tribunais));
    var d := Narrow(c, |f.anos| > 0, AnoMask(f.anos));
    var e := Narrow(d, |f.classes| > 0, ClasseMask(f.classes));
    Narrow(e, |f.assuntos| > 0, AssuntoMask(f.assuntos))
  }

  /** A row passes when it satisfies every input that is set; an unset input
      constrains nothing. */
  predicate Matches(r: AppRow, f: Filters)
  {
    (f.searchCpf == "" || TextContains(r.cpfConsulta, f.searchCpf)) &&
    (f.searchPassivo == "" || TextContains(r.partesPoloPassivo, f.searchPassivo)) &&
    (f.tribunais == [] || CellIn(r.tribunal, f.tribunais)) &&
    (f.anos == [] || r.anoDistribuicao in f.anos) &&
    (f.classes == [] || CellIn(r.classe, f.classes)) &&
    (f.assuntos == [] || CellIn(r.assunto, f.assuntos))
  }

  function MatchesMask(f: Filters): AppRow -> bool { (r: AppRow) => Matches(r, f) }

  /** The mask of one stage: pass everything when the input is unset. */
  function Guard(active: bool, p: AppRow -> bool): AppRow -> bool { (r: AppRow) => !active || p(r) }

  lemma Stage(xs: seq<AppRow>, active: bool, p: AppRow -> bool)
    ensures Narrow(xs, active, p) == Keep(xs, Guard(active, p))
  {
    if active {
      KeepAgree(xs, p, Guard(active, p));
    } else {
      KeepAllPass(xs, Guard(active, p));
    }
  }

  /** One stage appended to a chain that is already a single mask. */
  lemma Extend(df: seq<AppRow>, g: AppRow -> bool, active: bool, p: AppRow -> bool)
    ensures Narrow(Keep(df, g), active, p) == Keep(df, And(g, Guard(active, p)))
  {
    Stage(Keep(df, g), active, p);
    KeepFuse(df, g, Guard(active, p));
  }

  /** The six stage masks combined, in the order the chain applies them. */
  function ChainMask(f: Filters): AppRow -> bool
  {
    And(And(And(And(And(
      Guard(f.searchCpf != "", CpfMask(f.searchCpf)),
      Guard(f.searchPassivo != "", PassivoMask(f.searchPassivo))),
      Guard(|f.tribunais| > 0, TribunalMask(f.tribunais))),
      Guard(|f.anos| > 0, AnoMask(f.anos))),
      Guard(|f.classes| > 0, ClasseMask(f.classes))),
      Guard(|f.assuntos| > 0, AssuntoMask(f.assuntos)))
  }

  lemma ChainIsOneMask(df: seq<AppRow>, f: Filters)
    ensures ApplyFilters(df, f) == Keep(df, ChainMask(f))
  {
    var g1 := Guard(f.searchCpf != "", CpfMask(f.searchCpf));
    var h2 := And(g1, Guard(f.searchPassivo != "", PassivoMask(f.searchPassivo)));
    var h3 := And(h2, Guard(|f.tribunais| > 0, TribunalMask(f.tribunais)));
    var h4 := And(h3, Guard(|f.anos| > 0, AnoMask(f.anos)));
    var h5 := And(h4, Guard(|f.classes| > 0, ClasseMask(f.classes)));
    var a := Narrow(df, f.searchCpf != "", CpfMask(f.searchCpf));
    Stage(df, f.searchCpf != "", CpfMask(f.searchCpf));
    var b := Narrow(a, f.searchPassivo != "", PassivoMask(f.searchPassivo));
    Extend(df, g1, f.searchPassivo != "", PassivoMask(f.searchPassivo));
    var c := Narrow(b, |f.tribunais| > 0, TribunalMask(f.tribunais));
    Extend(df, h2, |f.tribunais| > 0, TribunalMask(f.tribunais));
    var d := Narrow(c, |f.anos| > 0, AnoMask(f.anos));
    Extend(df, h3, |f.anos| > 0, AnoMask(f.anos));
    var e := Narrow(d, |f.classes| > 0, ClasseMask(f.classes));
    Extend(df, h4, |f.classes| > 0, ClasseMask(f.classes));
    Extend(df, h5, |f.assuntos| > 0, AssuntoMask(f.assuntos));
  }

  lemma ChainMaskIsMatches(f: Filters, r: AppRow)
    ensures ChainMask(f)(r) == Matches(r, f)
  {
  }

  /** The chain selects exactly the rows that match, in table order. */
  lemma FilterSpec(df: seq<AppRow>, f: Filters)
    ensures ApplyFilters(df, f) == Keep(df, MatchesMask(f))
  {
    ChainIsOneMask(df, f);
    forall i | 0 <= i < |df|
      ensures ChainMask(f)(df[i]) == MatchesMask(f)(df[i])
    {
      ChainMaskIsMatches(f, df[i]);
    }
    KeepAgree(df, ChainMask(f), MatchesMask(f));
  }

  /** A row is in the result exactly when it is in the table and matches;
      the result keeps the table's order; filtering again changes nothing. */
  lemma FilterProperties(df: seq<AppRow>, f: Filters)
    ensures forall r :: r in ApplyFilters(df, f) <==> r in df && Matches(r, f)
    ensures IsSubsequence(ApplyFilters(df, f), df)
    ensures ApplyFilters(ApplyFilters(df, f), f) == ApplyFilters(df, f)
  {
    FilterSpec(df, f);
    forall r
      ensures r in ApplyFilters(df, f) <==> r in df && Matches(r, f)
    {
      KeepMembership(df, MatchesMask(f), r);
    }
    KeepIsSubsequence(df, MatchesMask(f));
    FilterSpec(ApplyFilters(df, f), f);
    KeepIdempotent(df, MatchesMask(f));
  }

  /** With every input unset the whole table is shown. */
  lemma NoFiltersShowEverything(df: seq<AppRow>)
    ensures ApplyFilters(df, Filters("", "", [], [], [], [])) == df
    ensures forall r :: Matches(r, Filters("", "", [], [], [], []))
  {
  }

  /** A null CPF or defendant cell never passes a non-empty search, so such a
      row is in no filtered table. */
  lemma NullCellNeverMatches(df: seq<AppRow>, r: AppRow, f: Filters)
    requires (f.searchCpf != "" && r.cpfConsulta.None?) ||
             (f.searchPassivo != "" && r.partesPoloPassivo.None?)
    ensures !Matches(r, f)
    ensures r !in ApplyFilters(df, f)
  {
    FilterProperties(df, f);
  }

  /** Selecting venue X with no year selected keeps exactly the venue-X rows,
      whatever their year. */
  lemma VenueOnlyFilter(df: seq<AppRow>, x: string)
    ensures forall r :: r in ApplyFilters(df, Filters("", "", [x], [], [], [])) <==>
                        r in df && r.tribunal == Some(x)
  {
    FilterProperties(df, Filters("", "", [x], [], [], []));
  }

  // ------------------------------------------------------------- indicators

  const CpfColumn: AppRow -> Option<string> := (r: AppRow) => r.cpfConsulta
  const TribunalColumn: AppRow -> Option<string> := (r: AppRow) => r.tribunal
  const AnoColumn: AppRow -> Option<string> := (r: AppRow) => Some(r.anoDistribuicao)

  /** `valor_causa.sum()`: 0 for no rows, and never negative when no amount is. */
  function TotalClaim(rows: seq<AppRow>): (total: real)
    ensures rows == [] ==> total == 0.0
    ensures (forall i :: 0 <= i < |rows| ==> rows[i].valorCausa >= 0.0) ==> total >= 0.0
  {
    if rows == [] then 0.0
    else
      assert forall i :: 0 <= i < |rows[1..]| ==> rows[1..][i] == rows[i + 1];
      rows[0].valorCausa + TotalClaim(rows[1..])
  }

  /** The four metrics at the top of the page. */
  datatype Kpis = Kpis(totalProcessos: nat, cpfsUnicos: nat, valorTotal: real, tribunais: nat)

  /** The number of rows, of distinct non-null CPFs and venues among them,
      and the sum of their claim values. */
  function ComputeKpis(filtered: seq<AppRow>): (k: Kpis)
    ensures k.totalProcessos == |filtered|
    ensures k.cpfsUnicos == |DistinctValues(filtered, CpfColumn)|
    ensures k.tribunais == |DistinctValues(filtered, TribunalColumn)|
    ensures k.valorTotal == TotalClaim(filtered)
    ensures k.cpfsUnicos <= k.totalProcessos && k.tribunais <= k.totalProcessos
    ensures (forall i :: 0 <= i < |filtered| ==> filtered[i].valorCausa >= 0.0) ==> k.valorTotal >= 0.0
  {
    Kpis(|filtered|, |DistinctValues(filtered, CpfColumn)|, TotalClaim(filtered),
         |DistinctValues(filtered, TribunalColumn)|)
  }

  /** The claim total splits between the rows a mask keeps and those it drops. */
  lemma {:induction false} TotalClaimSplit(rows: seq<AppRow>, p: AppRow -> bool)
    ensures TotalClaim(Keep(rows, p)) + TotalClaim(Keep(rows, Not(p))) == TotalClaim(rows)
  {
    if rows != [] {
      TotalClaimSplit(rows[1..], p);
    }
  }

  /** The indicators describe the filtered rows: never more rows, CPFs or
      venues than the full table, and the claim total is the full total minus
      that of the rows filtered out. */
  lemma KpisOfFilteredRows(df: seq<AppRow>, f: Filters)
    ensures var k := ComputeKpis(ApplyFilters(df, f));
            k.totalProcessos <= |df| &&
            k.cpfsUnicos <= |DistinctValues(df, CpfColumn)| &&
            k.tribunais <= |DistinctValues(df, TribunalColumn)| &&
            k.valorTotal + TotalClaim(Keep(df, Not(MatchesMask(f)))) == TotalClaim(df)
  {
    FilterSpec(df, f);
    DistinctValuesOfKeep(df, MatchesMask(f), CpfColumn);
    DistinctValuesOfKeep(df, MatchesMask(f), TribunalColumn);
    SubsetCardinality(DistinctValues(Keep(df, MatchesMask(f)), CpfColumn), DistinctValues(df, CpfColumn));
    SubsetCardinality(DistinctValues(Keep(df, MatchesMask(f)), TribunalColumn), DistinctValues(df, TribunalColumn));
    TotalClaimSplit(df, MatchesMask(f));
  }

  /** The distinct CPFs and venues counted are exactly those of the table's
      rows that pass every active filter. */
  lemma KpiValues(df: seq<AppRow>, f: Filters)
    ensures forall v :: v in DistinctValues(ApplyFilters(df, f), CpfColumn) <==>
              exists i :: 0 <= i < |df| && Matches(df[i], f) && df[i].cpfConsulta == Some(v)
    ensures forall v :: v in DistinctValues(ApplyFilters(df, f), TribunalColumn) <==>
              exists i :: 0 <= i < |df| && Matches(df[i], f) && df[i].tribunal == Some(v)
  {
    FilterSpec(df, f);
    forall v
      ensures v in DistinctValues(ApplyFilters(df, f), CpfColumn) <==>
              exists i :: 0 <= i < |df| && Matches(df[i], f) && df[i].cpfConsulta == Some(v)
    {
      DistinctValuesOfKeepExact(df, MatchesMask(f), CpfColumn, v);
    }
    forall v
      ensures v in DistinctValues(ApplyFilters(df, f), TribunalColumn) <==>
              exists i :: 0 <= i < |df| && Matches(df[i], f) && df[i].tribunal == Some(v)
    {
      DistinctValuesOfKeepExact(df, MatchesMask(f), TribunalColumn, v);
    }
  }

  lemma SubsetCardinality(a: set<string>, b: set<string>)
    requires a <= b
    ensures |a| <= |b|
  {
    assert b == a + (b - a);
  }

  // ------------------------------------------------------ initial selections

  /** The tribunal picker's options: the venues present, without null. */
  function AvailableTribunals(df: seq<AppRow>): (ts: set<string>)
    ensures forall t :: t in ts <==> exists i :: 0 <= i < |df| && df[i].tribunal == Some(t)
  {
    DistinctValues(df, TribunalColumn)
  }

  /** The year picker's options: the year labels present ("nan" included). */
  function AvailableYears(df: seq<AppRow>): (ys: set<string>)
    ensures forall y :: y in ys <==> exists i :: 0 <= i < |df| && df[i].anoDistribuicao == y
  {
    DistinctValues(df, AnoColumn)
  }

  /** The tribunal picker starts on the preferred venue when the table has it,
      and on nothing otherwise. */
  function DefaultTribunals(df: seq<AppRow>): (d: seq<string>)
    ensures d == [PreferredTribunal] <==> exists i :: 0 <= i < |df| && df[i].tribunal == Some(PreferredTribunal)
    ensures d != [PreferredTribunal] ==> d == []
    ensures forall t :: t in d ==> t in AvailableTribunals(df)
  {
    if PreferredTribunal in AvailableTribunals(df) then [PreferredTribunal] else []
  }

  const RecentYears: seq<string> := ["2026", "2025", "2024", "2023", "2022", "2021", "2020"]

  /** The year picker starts on the recent years present in the table, newest
      first. */
  function DefaultYears(df: seq<AppRow>): (d: seq<string>)
    ensures IsSubsequence(d, RecentYears)
    ensures forall y :: y in d <==> y in RecentYears && exists i :: 0 <= i < |df| && df[i].anoDistribuicao == y
    ensures forall y :: y in d ==> y in AvailableYears(df)
  {
    var d := Keep(RecentYears, InSet(AvailableYears(df)));
    KeepIsSubsequence(RecentYears, InSet(AvailableYears(df)));
    assert forall y :: y in d <==> y in RecentYears && y in AvailableYears(df) by {
      forall y
        ensures y in d <==> y in RecentYears && y in AvailableYears(df)
      {
        KeepMembership(RecentYears, InSet(AvailableYears(df)), y);
      }
    }
    d
  }

  // ------------------------------------------------------------ detail table

  /** The columns the detail table shows. */
  datatype DetailRow = DetailRow(
    cpfConsulta: Option<string>,
    numeroProcesso: Option<string>,
    assunto: Option<string>,
    classe: Option<string>,
    tribunal: Option<string>,
    dataDistribuicao: Option<string>,
    valorCausa: real,
    partesPoloPassivo: Option<string>)

  function Project(r: AppRow): DetailRow
  {
    DetailRow(r.cpfConsulta, r.numeroProcesso, r.assunto, r.classe, r.tribunal,
              r.dataDistribuicao, r.valorCausa, r.partesPoloPassivo)
  }

  predicate SortedByClaimDesc(s: seq<DetailRow>)
  {
    forall i, j :: 0 <= i < j < |s| ==> s[i].valorCausa >= s[j].valorCausa
  }

  function InsertByClaim(r: DetailRow, s: seq<DetailRow>): (t: seq<DetailRow>)
    requires SortedByClaimDesc(s)
    ensures SortedByClaimDesc(t)
    ensures multiset(t) == multiset(s) + multiset{r}
  {
    if s == [] || r.valorCausa >= s[0].valorCausa then [r] + s
    else
      var rest := InsertByClaim(r, s[1..]);
      HeadBoundsTail(s);
      BoundSurvivesInsert(s[0], r, s[1..], rest);
      SortedCons(s[0], rest);
      assert s == [s[0]] + s[1..];
      [s[0]] + rest
  }

  lemma HeadBoundsTail(s: seq<DetailRow>)
    requires SortedByClaimDesc(s) && s != []
    ensures forall k :: 0 <= k < |s[1..]| ==> s[0].valorCausa >= s[1..][k].valorCausa
  {
    forall k | 0 <= k < |s[1..]|
      ensures s[0].valorCausa >= s[1..][k].valorCausa
    {
      assert s[1..][k] == s[k + 1];
    }
  }

  /** A bound on every element survives inserting one more element it bounds. */
  lemma BoundSurvivesInsert(x: DetailRow, r: DetailRow, s: seq<DetailRow>, t: seq<DetailRow>)
    requires forall k :: 0 <= k < |s| ==> x.valorCausa >= s[k].valorCausa
    requires x.valorCausa >= r.valorCausa
    requires multiset(t) == multiset(s) + multiset{r}
    ensures forall k :: 0 <= k < |t| ==> x.valorCausa >= t[k].valorCausa
  {
    forall k | 0 <= k < |t|
      ensures x.valorCausa >= t[k].valorCausa
    {
      assert t[k] in multiset(t);
      if t[k] != r {
        assert t[k] in multiset(s);
        var m :| 0 <= m < |s| && s[m] == t[k];
      }
    }
  }

  lemma SortedCons(x: DetailRow, t: seq<DetailRow>)
    requires SortedByClaimDesc(t)
    requires forall k :: 0 <= k < |t| ==> x.valorCausa >= t[k].valorCausa
    ensures SortedByClaimDesc([x] + t)
  {
    var u := [x] + t;
    forall i, j | 0 <= i < j < |u|
      ensures u[i].valorCausa >= u[j].valorCausa
    {
      assert u[j] == t[j - 1];
      if i > 0 {
        assert u[i] == t[i - 1];
      }
    }
  }

  function SortByClaimDesc(s: seq<DetailRow>): (t: seq<DetailRow>)
    ensures SortedByClaimDesc(t)
    ensures multiset(t) == multiset(s)
  {
    if s == [] then []
    else
      assert s == [s[0]] + s[1..];
      InsertByClaim(s[0], SortByClaimDesc(s[1..]))
  }

  /** `filtered_df[cols_to_show]`: every row reduced to the shown columns. */
  function ProjectAll(filtered: seq<AppRow>): (p: seq<DetailRow>)
    ensures |p| == |filtered|
    ensures forall i :: 0 <= i < |filtered| ==> p[i] == Project(filtered[i])
  {
    seq(|filtered|, i requires 0 <= i < |filtered| => Project(filtered[i]))
  }

  /** The detail table: the filtered rows, projected to the shown columns and
      sorted by claim value, largest first; no row is lost or added. */
  function DetailView(filtered: seq<AppRow>): (t: seq<DetailRow>)
    ensures SortedByClaimDesc(t)
    ensures multiset(t) == multiset(ProjectAll(filtered))
    ensures |t| == |filtered|
    ensures forall x :: x in t <==> exists i :: 0 <= i < |filtered| && Project(filtered[i]) == x
  {
    var projected := ProjectAll(filtered);
    var t := SortByClaimDesc(projected);
    assert |t| == |multiset(t)| == |multiset(projected)| == |projected|;
    forall x
      ensures x in t <==> exists i :: 0 <= i < |filtered| && Project(filtered[i]) == x
    {
      assert x in t <==> x in multiset(t);
      assert x in projected <==> x in multiset(projected);
      if x in projected {
        var i :| 0 <= i < |projected| && projected[i] == x;
        assert Project(filtered[i]) == x;
      }
      if exists i :: 0 <= i < |filtered| && Project(filtered[i]) == x {
        var i :| 0 <= i < |filtered| && Project(filtered[i]) == x;
        assert projected[i] == x;
      }
    }
    t
  }
}
