/** The viewer's closing section: which of the searched CPFs have no case at
    all in the table, and which have none at the preferred venue. Both lists
    keep the registry's order and its repetitions. */
module Absence {
  import opened Common
  import opened Dashboard

  /** What the two tabs show: the number of searched CPFs, and the two lists. */
  datatype AbsenceReport = AbsenceReport(
    pesquisados: nat,
    semProcesso: seq<string>,
    semTjgo: seq<string>)

  /** `set(df['cpf_consulta'].unique())`, without the null marker, which no
      searched CPF can equal. */
  function CpfsWithCases(df: seq<AppRow>): (cpfs: set<string>)
    ensures forall c :: c in cpfs <==> exists i :: 0 <= i < |df| && df[i].cpfConsulta == Some(c)
  {
    DistinctValues(df, CpfColumn)
  }

  function AtPreferredVenue(): AppRow -> bool
  {
    (r: AppRow) => r.tribunal == Some(PreferredTribunal)
  }

  /** The CPFs of the rows whose venue is the preferred one. */
  function CpfsAtPreferredVenue(df: seq<AppRow>): set<string>
  {
    DistinctValues(Keep(df, AtPreferredVenue()), CpfColumn)
  }

  /** `[cpf for cpf in registry if cpf not in present]`. */
  function Complement(registry: seq<string>, present: set<string>): (r: seq<string>)
    ensures forall c :: c in r <==> c in registry && c !in present
    ensures IsSubsequence(r, registry)
    ensures |r| + |Keep(registry, InSet(present))| == |registry|
  {
    var r := Keep(registry, Not(InSet(present)));
    forall c
      ensures c in r <==> c in registry && c !in present
    {
      KeepMembership(registry, Not(InSet(present)), c);
    }
    KeepIsSubsequence(registry, Not(InSet(present)));
    KeepSplitCount(registry, InSet(present));
    r
  }

  /** The section is shown only when the registry is non-empty. */
  function Analyse(df: seq<AppRow>, registry: seq<string>): (r: Option<AbsenceReport>)
    ensures r.None? <==> registry == []
    ensures r.Some? ==> r.value.pesquisados == |registry|
    ensures r.Some? ==> r.value.semProcesso == Complement(registry, CpfsWithCases(df))
    ensures r.Some? ==> r.value.semTjgo == Complement(registry, CpfsAtPreferredVenue(df))
    ensures r.Some? ==> forall c :: c in r.value.semProcesso <==>
              c in registry && !exists i :: 0 <= i < |df| && df[i].cpfConsulta == Some(c)
    ensures r.Some? ==> forall c :: c in r.value.semTjgo <==>
              c in registry && !exists i :: 0 <= i < |df| && df[i].cpfConsulta == Some(c) &&
                                             df[i].tribunal == Some(PreferredTribunal)
  {
    if registry == [] then None
    else
      forall c
        ensures c in CpfsAtPreferredVenue(df) <==>
                exists i :: 0 <= i < |df| && df[i].cpfConsulta == Some(c) &&
                            df[i].tribunal == Some(PreferredTribunal)
      {
        VenueCpf(df, c);
      }
      Some(AbsenceReport(|registry|,
                         Complement(registry, CpfsWithCases(df)),
                         Complement(registry, CpfsAtPreferredVenue(df))))
  }

  /** A CPF is found at the preferred venue exactly when some row of that
      venue carries it. */
  lemma VenueCpf(df: seq<AppRow>, c: string)
    ensures c in CpfsAtPreferredVenue(df) <==>
            exists i :: 0 <= i < |df| && df[i].cpfConsulta == Some(c) &&
                        df[i].tribunal == Some(PreferredTribunal)
  {
    DistinctValuesOfKeepExact(df, AtPreferredVenue(), CpfColumn, c);
  }

  /** A CPF with no case at all has none at the preferred venue either: the
      general list is a sub-list of the venue list, so never longer. */
  lemma GeneralWithinVenue(df: seq<AppRow>, registry: seq<string>)
    ensures IsSubsequence(Complement(registry, CpfsWithCases(df)),
                          Complement(registry, CpfsAtPreferredVenue(df)))
    ensures |Complement(registry, CpfsWithCases(df))| <=
            |Complement(registry, CpfsAtPreferredVenue(df))|
  {
    var big := CpfsWithCases(df);
    var small := CpfsAtPreferredVenue(df);
    DistinctValuesOfKeep(df, AtPreferredVenue(), CpfColumn);
    assert small <= big;
    var venueList := Keep(registry, Not(InSet(small)));
    KeepFuse(registry, Not(InSet(small)), Not(InSet(big)));
    KeepAgree(registry, And(Not(InSet(small)), Not(InSet(big))), Not(InSet(big)));
    KeepIsSubsequence(venueList, Not(InSet(big)));
    SubsequenceLength(Complement(registry, big), Complement(registry, small));
  }

  function CaseRow(cpf: string, tribunal: string): AppRow
  {
    AppRow(Some(cpf), None, None, None, Some(tribunal), None, None, "nan", 0.0, None)
  }

  /** Registry [A, B, C] with cases only for B, none of them at the preferred
      venue: the general list is [A, C]; the venue list is all three. */
  lemma RegistryExample()
    ensures var df := [CaseRow("B", "TRF1")];
            Analyse(df, ["A", "B", "C"]) == Some(AbsenceReport(3, ["A", "C"], ["A", "B", "C"]))
  {
    var df := [CaseRow("B", "TRF1")];
    var reg := ["A", "B", "C"];
    assert CpfsWithCases(df) == {"B"};
    assert Keep(df, AtPreferredVenue()) == [];
    assert CpfsAtPreferredVenue(df) == {};
    assert Complement(reg, {"B"}) == ["A", "C"];
    assert Complement(reg, {}) == reg;
  }
}
