/** `parse_regulation_data`: clean the reply, decode it, check that it carries
    `requirements` and `summary`, and build the response for the caller's product
    and market. A failure comes back as `(False, {...})`, which is `Rejected` here;
    what the Python code leaves to propagate is `Raised`. */
module Regulation {
  import opened Strings
  import opened Models
  import opened JsonClean

  /** An exception that `parse_regulation_data` does not catch. */
  datatype Uncaught =
    | NotAnObject    // a decoded array, string, number, boolean or null: `in`, `.keys()` or indexing fails
    | InvalidFields  // pydantic refuses the `requirements` or `summary` member

  datatype ParseOutcome =
    | Parsed(response: MarketRequirementsResponse)
    | Rejected(productType: string, market: string, error: string, rawResponse: string)
    | Raised(exception: Uncaught)

  const MissingFieldsError := "API response missing required fields"
  const ParsingErrorPrefix := "JSON parsing error: "

  function ParseRegulationData(content: string, productType: string, market: string, loads: Loads): (r: ParseOutcome)
    ensures r.Parsed? ==> r.response.productType == productType && r.response.market == market
    ensures r.Rejected? ==>
      && r.productType == productType && r.market == market
      && r.rawResponse == CleanJson(content, loads)
      && (r.error == MissingFieldsError || StartsWith(r.error, ParsingErrorPrefix))
  {
    var cleaned := CleanJson(content, loads);
    match loads(cleaned)
    case DecodeError(message) => Rejected(productType, market, ParsingErrorPrefix + message, cleaned)
    case Decoded(JsonNonObject) => Raised(NotAnObject)
    case Decoded(JsonObject(keys, typed)) =>
      if "requirements" !in keys || "summary" !in keys then
        Rejected(productType, market, MissingFieldsError, cleaned)
      else
        match typed
        case None => Raised(InvalidFields)
        case Some(fields) =>
          Parsed(MarketRequirementsResponse(productType, market, fields.requirements, fields.summary))
  }

  /** A decoded object without `requirements` or without `summary` is rejected with the
      missing-fields error and the cleaned text, and only such an object is. */
  lemma MissingFieldsRejected(content: string, productType: string, market: string, loads: Loads)
    ensures var cleaned := CleanJson(content, loads);
            var r := ParseRegulationData(content, productType, market, loads);
            (r.Rejected? && r.error == MissingFieldsError) <==>
              (loads(cleaned).Decoded? && loads(cleaned).value.JsonObject?
               && ("requirements" !in loads(cleaned).value.keys || "summary" !in loads(cleaned).value.keys))
  {
    var cleaned := CleanJson(content, loads);
    if loads(cleaned).DecodeError? {
      var e := ParsingErrorPrefix + loads(cleaned).message;
      assert e[0] == 'J';
    }
  }

  /** A decode failure, and nothing else, gives an error that starts "JSON parsing error". */
  lemma DecodeFailureRejected(content: string, productType: string, market: string, loads: Loads)
    ensures var r := ParseRegulationData(content, productType, market, loads);
            (r.Rejected? && StartsWith(r.error, ParsingErrorPrefix)) <==> loads(CleanJson(content, loads)).DecodeError?
  {
    var cleaned := CleanJson(content, loads);
    if loads(cleaned).DecodeError? {
      var e := ParsingErrorPrefix + loads(cleaned).message;
      assert e[..|ParsingErrorPrefix|] == ParsingErrorPrefix;
    } else {
      assert MissingFieldsError[0] != ParsingErrorPrefix[0];
    }
  }

  /** Success takes the product and market from the caller and only `requirements`
      and `summary` from the decoded content. */
  lemma SuccessShape(content: string, productType: string, market: string, loads: Loads)
    ensures var cleaned := CleanJson(content, loads);
            var r := ParseRegulationData(content, productType, market, loads);
            r.Parsed? <==>
              (loads(cleaned).Decoded? && loads(cleaned).value.JsonObject?
               && "requirements" in loads(cleaned).value.keys && "summary" in loads(cleaned).value.keys
               && loads(cleaned).value.typed.Some?)
    ensures var cleaned := CleanJson(content, loads);
            var r := ParseRegulationData(content, productType, market, loads);
            r.Parsed? ==>
              r.response == MarketRequirementsResponse(productType, market,
                               loads(cleaned).value.typed.value.requirements,
                               loads(cleaned).value.typed.value.summary)
  {
  }

  /** When the brace scan produced the cleaned text, decoding it cannot fail. */
  lemma ScannedReplyDecodes(content: string, productType: string, market: string, loads: Loads)
    requires content != [] && FenceStage(content).None? && ScanStage(content, loads).Some?
    ensures var r := ParseRegulationData(content, productType, market, loads);
            !(r.Rejected? && StartsWith(r.error, ParsingErrorPrefix))
  {
    ScanResult(content, loads);
    DecodeFailureRejected(content, productType, market, loads);
  }
}
