/** The record shapes shared by the server and the page. */
module Models {
  import opened Optional

  /** One regulatory requirement; `source` is a URL or a free-form citation. */
  datatype Requirement = Requirement(
    name: string,
    description: string,
    category: string,
    source: Option<string>)

  /** The server's answer to a requirements query. */
  datatype MarketRequirementsResponse = MarketRequirementsResponse(
    productType: string,
    market: string,
    requirements: seq<Requirement>,
    summary: string)

  /** The JSON document as the page receives it: its `requirements` member may be absent. */
  datatype Document = Document(
    productType: string,
    market: string,
    requirements: Option<seq<Requirement>>,
    summary: string)
}
