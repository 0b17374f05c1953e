/**
 * `extractDataFromPdfText`: the record read from the plain text of a PGDAS
 * declaration, with its five header fields and the two monthly revenue maps.
 */
module PdfParser {
  import opened Wrappers
  import opened JsText
  import opened BrNumber
  import opened MonthlyRevenues
  import opened HeaderFields
  import opened RevenueBlock

  /**
   * The object the source builds. A header field the source never assigns (its
   * pattern did not match) is None; the two revenue maps are always assigned.
   */
  datatype PgdasData = PgdasData(
    cnpj: Option<string>,
    nomeEmpresarial: Option<string>,
    periodoApuracao: Option<string>,
    receitaBrutaAcumulada: Option<JsNumber>,
    receitaBrutaAno: Option<JsNumber>,
    receitasMercadoInterno: Revenues,
    receitasMercadoExterno: Revenues)

  /** `extractDataFromPdfText(text)`. */
  function ExtractDataFromPdfText(text: string): (d: PgdasData)
    ensures d.receitasMercadoInterno.Valid() && d.receitasMercadoExterno.Valid()
    ensures FindBlockFrom(text, 0).None? ==> d.receitasMercadoInterno == NoRevenues == d.receitasMercadoExterno
  {
    var block := BlockText(text);
    var internal := InternalContent(block);
    var external := ExternalContent(block);
    NoTokenNoRevenues([]);
    PgdasData(
      Cnpj(text),
      NomeEmpresarial(text),
      PeriodoApuracao(text),
      ReceitaBrutaAcumulada(text),
      ReceitaBrutaAno(text),
      RevenuesOf(internal),
      RevenuesOf(external))
  }

  /** Each header field is set exactly when its pattern matches somewhere in the text. */
  lemma HeaderFieldsSetIffMatched(text: string)
    ensures var d := ExtractDataFromPdfText(text);
            d.cnpj.Some? <==> exists p :: 0 <= p && MatchesAt(text, CnpjLabel, IsCnpjChar, p)
    ensures var d := ExtractDataFromPdfText(text);
            d.nomeEmpresarial.Some? <==> exists p :: 0 <= p && MatchesAt(text, NomeEmpresarialLabel, IsLineChar, p)
    ensures var d := ExtractDataFromPdfText(text);
            d.periodoApuracao.Some? <==> exists p :: 0 <= p && MatchesAt(text, PeriodoApuracaoLabel, IsLineChar, p)
    ensures var d := ExtractDataFromPdfText(text);
            d.receitaBrutaAcumulada.Some? <==> exists p :: 0 <= p && TotalMatchesAt(text, Rbt12Label, Rbt12Suffix, p)
    ensures var d := ExtractDataFromPdfText(text);
            d.receitaBrutaAno.Some? <==> exists p :: 0 <= p && TotalMatchesAt(text, RbaLabel, RbaSuffix, p)
  {
  }

  /**
   * The two maps are read from their own slices of the block: a period is a key
   * of the domestic map exactly when it is a token of the domestic part, and
   * likewise for the foreign map, so a period may be in either, both or neither.
   */
  lemma MarketsAreIndependent(text: string, date: string)
    ensures var d := ExtractDataFromPdfText(text);
            var internal := InternalContent(BlockText(text));
            (date in d.receitasMercadoInterno.keys <==>
               exists k :: 0 <= k < |Periods(internal)| && Periods(internal)[k].date == date)
    ensures var d := ExtractDataFromPdfText(text);
            var external := ExternalContent(BlockText(text));
            (date in d.receitasMercadoExterno.keys <==>
               exists k :: 0 <= k < |Periods(external)| && Periods(external)[k].date == date)
  {
    KeyIffToken(InternalContent(BlockText(text)), date);
    KeyIffToken(ExternalContent(BlockText(text)), date);
  }

  /**
   * The check the report service makes before saving (it refuses a record whose
   * CNPJ or period is missing or empty).
   */
  predicate IsSavable(d: PgdasData)
  {
    d.cnpj.Some? && d.cnpj.value != [] && d.periodoApuracao.Some? && d.periodoApuracao.value != []
  }

  /** A text without the CNPJ label can never be saved. */
  lemma NoCnpjLabelNotSavable(text: string)
    requires forall p :: 0 <= p ==> !OccursAt(text, CnpjLabel, p)
    ensures !IsSavable(ExtractDataFromPdfText(text))
  {
  }
}
