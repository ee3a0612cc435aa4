/**
 * The feature-role catalogue of the fraud-detection project: which columns
 * only trace a transaction, which one is the target, and which ones feed the
 * models (categorical and numeric), plus the check that a table carries every
 * modelling feature.
 */
module Features {
  import Strings

  /** Columns that identify a transaction; never used for modelling. */
  const TracingColumns: seq<string> := [
    "id_transacao",
    "id_cartao",
    "ts_transacao",
    "data_transacao"
  ]

  /** The label column: 1 for a fraudulent transaction, 0 otherwise. */
  const TargetColumn: string := "target_fraude"

  const CategoricalFeatures: seq<string> := [
    "temp_faixa",
    "valor_transacao_faixa",
    "periodo_dia"
  ]

  const NumericFeatures: seq<string> := [
    "hora_transacao",
    "dia_semana",
    "fim_de_semana",
    "tempo_vida_cartao_dias",
    "tempo_desde_ultima_transacao_min",
    "tempo_desde_ultima_transacao_horas",
    "uso_intervalo_curto",
    "qtd_transacoes_dia",
    "qtd_transacoes_24h",
    "uso_intenso_24h",
    "linha_repetida",
    "dispositivo_repetido",
    "qtd_linhas_distintas_dia",
    "qtd_dispositivos_distintos_dia",
    "idade_suspeita",
    "feriado_bin",
    "feriado_nao_mapeado",
    "sentido_ida",
    "clima_adverso",
    "cartao_qtd_transacoes",
    "cartao_dias_ativos",
    "cartao_media_transacoes_por_dia",
    "cartao_qtd_linhas_distintas",
    "cartao_qtd_dispositivos_distintos",
    "cartao_qtd_motoristas_distintos",
    "cartao_valor_transacao_mean",
    "cartao_valor_transacao_std",
    "cartao_pct_integracao",
    "cartao_pct_feriado",
    "cartao_pct_intervalo_curto",
    "valor_vs_media_cartao",
    "valor_zscore_cartao",
    "valor_outlier_cartao",
    "uso_acima_media_dia_cartao"
  ]

  /** No element of `xs` is an element of `ys` (stated by position). */
  predicate Disjoint(xs: seq<string>, ys: seq<string>)
  {
    forall i, j :: 0 <= i < |xs| && 0 <= j < |ys| ==> xs[i] != ys[j]
  }

  lemma CategoricalNotTracing()
    ensures Disjoint(CategoricalFeatures, TracingColumns)
  {
  }

  lemma NumericNotTracing()
    ensures Disjoint(NumericFeatures, TracingColumns)
  {
  }

  lemma CategoricalNotTarget()
    ensures Disjoint(CategoricalFeatures, [TargetColumn])
  {
  }

  lemma NumericNotTarget()
    ensures Disjoint(NumericFeatures, [TargetColumn])
  {
  }

  lemma CategoricalNotNumeric()
    ensures Disjoint(CategoricalFeatures, NumericFeatures)
  {
  }

  /** The modelling features: categorical first, then numeric, in declared order. */
  function GetFeatureNames(): (r: seq<string>)
    ensures |r| == |CategoricalFeatures| + |NumericFeatures|
    ensures r[..|CategoricalFeatures|] == CategoricalFeatures
    ensures r[|CategoricalFeatures|..] == NumericFeatures
  {
    CategoricalFeatures + NumericFeatures
  }

  /** Names kept apart by position are kept apart by membership, also after concatenation. */
  lemma DisjointConcat(xs: seq<string>, ys: seq<string>, zs: seq<string>)
    requires Disjoint(xs, zs) && Disjoint(ys, zs)
    ensures forall f :: f in xs + ys ==> f !in zs
  {
    forall i, j | 0 <= i < |xs + ys| && 0 <= j < |zs|
      ensures (xs + ys)[i] != zs[j]
    {
      if i < |xs| {
        assert (xs + ys)[i] == xs[i];
      } else {
        assert (xs + ys)[i] == ys[i - |xs|];
      }
    }
  }

  /** No leakage: no modelling feature is a tracing column or the target. */
  lemma FeatureNamesExcludeTracingAndTarget()
    ensures forall f :: f in GetFeatureNames() ==> f !in TracingColumns && f != TargetColumn
  {
    CategoricalNotTracing();
    NumericNotTracing();
    CategoricalNotTarget();
    NumericNotTarget();
    DisjointConcat(CategoricalFeatures, NumericFeatures, TracingColumns);
    DisjointConcat(CategoricalFeatures, NumericFeatures, [TargetColumn]);
  }

  /**
   * The official grouping of the columns by role, keyed as in the project:
   * the target group is the one-element list holding the target column, and
   * the categorical and numeric groups together are the modelling features.
   */
  function GetFeatures(): (r: map<string, seq<string>>)
    ensures r.Keys == {"rastreio", "alvo", "categoricas", "numericas"}
    ensures r["rastreio"] == TracingColumns
    ensures r["alvo"] == [TargetColumn]
    ensures r["categoricas"] == CategoricalFeatures && r["numericas"] == NumericFeatures
    ensures r["categoricas"] + r["numericas"] == GetFeatureNames()
  {
    map[
      "rastreio" := TracingColumns,
      "alvo" := [TargetColumn],
      "categoricas" := CategoricalFeatures,
      "numericas" := NumericFeatures
    ]
  }

  /**
   * Outcome of checking a table's columns: accepted, or the `ValueError`
   * raised with the missing modelling features listed in sorted order.
   */
  datatype Validation = Accepted | MissingFeatures(missing: seq<string>)

  /**
   * Checks that `columns` holds every modelling feature; extra columns are
   * allowed. On failure the missing names are `sorted(expected - received)`.
   */
  function ValidateFeatureSet(columns: seq<string>): (r: Validation)
    ensures r.Accepted? <==> forall f :: f in GetFeatureNames() ==> f in columns
    ensures r.MissingFeatures? ==>
      && r.missing != []
      && Strings.StrictlySorted(r.missing)
      && forall f :: f in r.missing <==> f in GetFeatureNames() && f !in columns
  {
    CheckCoverage(GetFeatureNames(), columns)
  }

  /** `sorted(set(expected) - set(received))`, or acceptance when that is empty. */
  function CheckCoverage(expected: seq<string>, received: seq<string>): (r: Validation)
    ensures r.Accepted? <==> forall f :: f in expected ==> f in received
    ensures r.MissingFeatures? ==>
      && r.missing != []
      && Strings.StrictlySorted(r.missing)
      && forall f :: f in r.missing <==> f in expected && f !in received
  {
    var missing := Strings.SortedSet(Strings.Drop(expected, received));
    if missing == [] then Accepted
    else
      assert missing[0] in expected && missing[0] !in received;
      MissingFeatures(missing)
  }

  /**
   * The coverage check, report included, depends only on the set of names
   * received: reordering or repeating them changes nothing.
   */
  lemma {:induction false} CoverageDependsOnlyOnNames(expected: seq<string>, received: seq<string>, others: seq<string>)
    requires forall f :: f in received <==> f in others
    ensures CheckCoverage(expected, received) == CheckCoverage(expected, others)
  {
    var a, b := CheckCoverage(expected, received), CheckCoverage(expected, others);
    if a.MissingFeatures? && b.MissingFeatures? {
      Strings.StrictlySortedUnique(a.missing, b.missing);
    }
  }

  /** Receiving more names can only shrink the report, and never rejects what was accepted. */
  lemma CoverageMonotone(expected: seq<string>, received: seq<string>, more: seq<string>)
    requires forall f :: f in received ==> f in more
    ensures CheckCoverage(expected, received).Accepted? ==> CheckCoverage(expected, more).Accepted?
    ensures CheckCoverage(expected, more).MissingFeatures? ==>
      && CheckCoverage(expected, received).MissingFeatures?
      && forall f :: f in CheckCoverage(expected, more).missing ==> f in CheckCoverage(expected, received).missing
  {
  }

  /**
   * The outcome, including the reported list, depends only on the set of
   * column names: reordering or repeating columns changes nothing.
   */
  lemma ValidateDependsOnlyOnNames(columns: seq<string>, others: seq<string>)
    requires forall f :: f in columns <==> f in others
    ensures ValidateFeatureSet(columns) == ValidateFeatureSet(others)
  {
    CoverageDependsOnlyOnNames(GetFeatureNames(), columns, others);
  }

  /** Adding columns never turns an accepted table into a rejected one. */
  lemma ValidateAcceptsSupersets(columns: seq<string>, more: seq<string>)
    requires ValidateFeatureSet(columns).Accepted?
    requires forall f :: f in columns ==> f in more
    ensures ValidateFeatureSet(more).Accepted?
  {
    CoverageMonotone(GetFeatureNames(), columns, more);
  }

  /** Adding columns can only shrink the reported list of missing features. */
  lemma ValidateMissingShrinks(columns: seq<string>, more: seq<string>)
    requires ValidateFeatureSet(more).MissingFeatures?
    requires forall f :: f in columns ==> f in more
    ensures ValidateFeatureSet(columns).MissingFeatures?
    ensures forall f :: f in ValidateFeatureSet(more).missing ==> f in ValidateFeatureSet(columns).missing
  {
    CoverageMonotone(GetFeatureNames(), columns, more);
  }
}
