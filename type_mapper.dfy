/**
  WqToBqDataTypeMapper: the fixed table from a WebQuery column class
  (the `class` attribute of a `col` element) to a BigQuery column type.
 */
module TypeMapper {

  const TIMESTAMP: string := "TIMESTAMP"
  const INTEGER: string := "INTEGER"
  const TEXT: string := "STRING"
  const DEFAULT_TYPE: string := "STRING"

  /** The five entries put into the table by the static initialiser; never changed afterwards. */
  const TYPE_MAPPER: map<string, string> :=
    map["date" := "DATE", "text" := "STRING", "integral" := "INTEGER", "decimal" := "FLOAT", "percent" := "FLOAT"]

  /** The BigQuery types the table (or its default) can produce. */
  predicate IsMappedType(t: string) {
    t == "DATE" || t == "STRING" || t == "INTEGER" || t == "FLOAT"
  }

  /**
    Exact-match lookup with `DEFAULT_TYPE` for every token not in the table.
    Total: the result is never null and always one of the four mapped types,
    in particular never `TIMESTAMP`.
   */
  function TranslateWebQueryTypeToBigQueryType(webQueryType: string): (bqType: string)
    ensures IsMappedType(bqType)
    ensures bqType != TIMESTAMP
    ensures webQueryType in TYPE_MAPPER ==> bqType == TYPE_MAPPER[webQueryType]
    ensures webQueryType !in TYPE_MAPPER ==> bqType == DEFAULT_TYPE
  {
    if webQueryType in TYPE_MAPPER then TYPE_MAPPER[webQueryType] else DEFAULT_TYPE
  }

  /** The known tokens map exactly as the table says. */
  lemma KnownTokens()
    ensures TranslateWebQueryTypeToBigQueryType("date") == "DATE"
    ensures TranslateWebQueryTypeToBigQueryType("text") == "STRING"
    ensures TranslateWebQueryTypeToBigQueryType("integral") == "INTEGER"
    ensures TranslateWebQueryTypeToBigQueryType("decimal") == "FLOAT"
    ensures TranslateWebQueryTypeToBigQueryType("percent") == "FLOAT"
  {
  }

  /** No normalisation: any other token, a case variant or the empty token among them, gets the default. */
  lemma UnknownTokensGetDefault(webQueryType: string)
    requires webQueryType != "date" && webQueryType != "text" && webQueryType != "integral"
    requires webQueryType != "decimal" && webQueryType != "percent"
    ensures TranslateWebQueryTypeToBigQueryType(webQueryType) == DEFAULT_TYPE == "STRING"
  {
  }

  lemma CaseVariantsAndEmptyGetDefault()
    ensures TranslateWebQueryTypeToBigQueryType("Date") == DEFAULT_TYPE
    ensures TranslateWebQueryTypeToBigQueryType("INTEGRAL") == DEFAULT_TYPE
    ensures TranslateWebQueryTypeToBigQueryType("") == DEFAULT_TYPE
  {
    UnknownTokensGetDefault("Date");
    UnknownTokensGetDefault("INTEGRAL");
    UnknownTokensGetDefault("");
  }
}
