/** The requirements page's controller: the search button's click handler with its
    loading state, the stored result (`currentResultData`), the structured/raw view
    toggle, the data-sources panel, and the export button's guard. */
module QueryPage {
  import opened Optional
  import opened Models
  import opened DataSources
  import opened ExportName
  import opened ViewButtons

  const SearchLabel := "Search Requirements"
  const SearchingLabel := "Searching..."
  const MissingInputAlert := "Please enter both product type and target market"
  const FetchErrorPrefix := "Error fetching regulation requirements: "
  /** The message of the TypeError a browser raises when `displayRequirements` reaches
      `data.requirements.forEach` on a reply without requirements (V8's wording). */
  const MissingRequirementsMessage := "Cannot read properties of undefined (reading 'forEach')"

  /** What the results container holds. */
  datatype Shown = NothingShown | StructuredOf(doc: Document) | RawOf(doc: Document)

  /** What the data-sources container holds. */
  datatype Panel = Placeholder | SourcesList(sources: seq<DataSource>)

  /** One call of `fetchRegulationRequirements`. */
  datatype Request = Request(productType: string, market: string, detailed: bool)

  /** How an awaited `fetchRegulationRequirements` call settled. */
  datatype FetchOutcome = Fetched(doc: Document) | Failed(message: string)

  class Page {
    var currentResultData: Option<Document>
    var searchLabel: string
    var searchDisabled: bool
    var resultsHidden: bool
    var shown: Shown
    var panel: Panel
    var requests: seq<Request>
    var alerts: seq<string>
    const structuredBtn: Button
    const rawBtn: Button

    /** What the page's state promises between events: the active view button
        matches the view on display, the results section is revealed exactly once a
        result is stored, nothing is displayed before that, and the structured view
        only ever shows a reply with requirements. */
    ghost predicate Consistent()
      reads this, structuredBtn, rawBtn
    {
      && structuredBtn != rawBtn
      && (shown.StructuredOf? ==> IsActive(structuredBtn.classes) && IsInactive(rawBtn.classes))
      && (shown.RawOf? ==> IsActive(rawBtn.classes) && IsInactive(structuredBtn.classes))
      && (shown.StructuredOf? ==> shown.doc.requirements.Some?)
      && (currentResultData.Some? <==> !resultsHidden)
      && (currentResultData.None? ==> shown.NothingShown? && panel.Placeholder?)
    }

    /** The page after `DOMContentLoaded`: no result stored, results hidden and the
        data-sources placeholder shown. The view buttons keep the classes the page
        markup gives them. */
    constructor(structuredClasses: set<string>, rawClasses: set<string>)
      ensures Consistent()
      ensures currentResultData.None? && searchLabel == SearchLabel && !searchDisabled
      ensures resultsHidden && shown.NothingShown? && panel.Placeholder?
      ensures requests == [] && alerts == []
      ensures structuredBtn.classes == structuredClasses && rawBtn.classes == rawClasses
      ensures fresh(structuredBtn) && fresh(rawBtn)
    {
      currentResultData := None;
      searchLabel := SearchLabel;
      searchDisabled := false;
      resultsHidden := true;
      shown := NothingShown;
      panel := Placeholder;
      requests := [];
      alerts := [];
      structuredBtn := new Button(structuredClasses);
      rawBtn := new Button(rawClasses);
    }

    /** The synchronous part of the search button's click handler, up to the awaited
        fetch. A disabled button receives no click; empty inputs only raise an alert;
        otherwise the button shows the loading state and one request is issued. */
    method ClickSearch(productType: string, market: string, detailed: bool) returns (started: bool)
      requires Consistent()
      modifies this
      ensures Consistent()
      ensures started <==> !old(searchDisabled) && productType != "" && market != ""
      ensures started ==> searchLabel == SearchingLabel && searchDisabled
                          && requests == old(requests) + [Request(productType, market, detailed)]
                          && alerts == old(alerts)
      ensures !started ==> searchLabel == old(searchLabel) && searchDisabled == old(searchDisabled)
                           && requests == old(requests)
      ensures !started && !old(searchDisabled) ==> alerts == old(alerts) + [MissingInputAlert]
      ensures old(searchDisabled) ==> alerts == old(alerts)
      ensures currentResultData == old(currentResultData) && resultsHidden == old(resultsHidden)
      ensures shown == old(shown) && panel == old(panel)
    {
      if searchDisabled {
        return false;
      }
      if productType == "" || market == "" {
        alerts := alerts + [MissingInputAlert];
        return false;
      }
      searchLabel := SearchingLabel;
      searchDisabled := true;
      requests := requests + [Request(productType, market, detailed)];
      started := true;
    }

    /** The rest of the click handler, once the fetch has settled. A reply is stored
        and the results section revealed; then it is displayed in the structured view
        and the data-sources panel is rebuilt from it. A reply without requirements
        makes the display throw before anything is drawn, which the handler reports
        like a failed fetch. In every case the button is reset. */
    method FetchSettled(outcome: FetchOutcome, parseHost: ParseHost)
      requires Consistent() && searchDisabled
      modifies this, structuredBtn, rawBtn
      ensures Consistent()
      ensures searchLabel == SearchLabel && !searchDisabled && requests == old(requests)
      ensures outcome.Failed? ==>
                && alerts == old(alerts) + [FetchErrorPrefix + outcome.message]
                && currentResultData == old(currentResultData) && resultsHidden == old(resultsHidden)
                && shown == old(shown) && panel == old(panel)
                && structuredBtn.classes == old(structuredBtn.classes)
                && rawBtn.classes == old(rawBtn.classes)
      ensures outcome.Fetched? ==> currentResultData == Some(outcome.doc) && !resultsHidden
      ensures outcome.Fetched? && outcome.doc.requirements.Some? ==>
                && alerts == old(alerts)
                && shown == StructuredOf(outcome.doc)
                && panel == SourcesList(Sources(outcome.doc.requirements.value, parseHost))
                && structuredBtn.classes == Restyled(old(structuredBtn.classes), true)
                && rawBtn.classes == Restyled(old(rawBtn.classes), false)
      ensures outcome.Fetched? && outcome.doc.requirements.None? ==>
                && alerts == old(alerts) + [FetchErrorPrefix + MissingRequirementsMessage]
                && shown == old(shown) && panel == old(panel)
                && structuredBtn.classes == old(structuredBtn.classes)
                && rawBtn.classes == old(rawBtn.classes)
    {
      match outcome {
        case Failed(message) =>
          alerts := alerts + [FetchErrorPrefix + message];
        case Fetched(doc) =>
          currentResultData := Some(doc);
          resultsHidden := false;
          if doc.requirements.Some? {
            shown := StructuredOf(doc);
            SetViewButtonStates(structuredBtn, rawBtn, StructuredView);
            var sources := ExtractDataSources(Some(doc), parseHost);
            panel := SourcesList(sources);
          } else {
            alerts := alerts + [FetchErrorPrefix + MissingRequirementsMessage];
          }
      }
      searchLabel := SearchLabel;
      searchDisabled := false;
    }

    /** The structured-view button: redraws the stored result, if any. A stored reply
        without requirements makes the display throw, which leaves the page as it was. */
    method ShowStructured()
      requires Consistent()
      modifies this, structuredBtn, rawBtn
      ensures Consistent()
      ensures currentResultData == old(currentResultData) && panel == old(panel)
      ensures resultsHidden == old(resultsHidden)
      ensures searchLabel == old(searchLabel) && searchDisabled == old(searchDisabled)
      ensures requests == old(requests) && alerts == old(alerts)
      ensures if old(currentResultData).Some? && old(currentResultData).value.requirements.Some?
              then shown == StructuredOf(currentResultData.value)
                   && structuredBtn.classes == Restyled(old(structuredBtn.classes), true)
                   && rawBtn.classes == Restyled(old(rawBtn.classes), false)
              else shown == old(shown)
                   && structuredBtn.classes == old(structuredBtn.classes)
                   && rawBtn.classes == old(rawBtn.classes)
    {
      if currentResultData.Some? && currentResultData.value.requirements.Some? {
        shown := StructuredOf(currentResultData.value);
        SetViewButtonStates(structuredBtn, rawBtn, StructuredView);
      }
    }

    /** The raw-view button: shows the stored result as JSON, if there is one. */
    method ShowRaw()
      requires Consistent()
      modifies this, structuredBtn, rawBtn
      ensures Consistent()
      ensures currentResultData == old(currentResultData) && panel == old(panel)
      ensures resultsHidden == old(resultsHidden)
      ensures searchLabel == old(searchLabel) && searchDisabled == old(searchDisabled)
      ensures requests == old(requests) && alerts == old(alerts)
      ensures if old(currentResultData).Some?
              then shown == RawOf(currentResultData.value)
                   && structuredBtn.classes == Restyled(old(structuredBtn.classes), false)
                   && rawBtn.classes == Restyled(old(rawBtn.classes), true)
              else shown == old(shown)
                   && structuredBtn.classes == old(structuredBtn.classes)
                   && rawBtn.classes == old(rawBtn.classes)
    {
      if currentResultData.Some? {
        shown := RawOf(currentResultData.value);
        SetViewButtonStates(structuredBtn, rawBtn, RawView);
      }
    }

    /** The export button: the name of the file downloaded for the stored result,
        or nothing when no result is stored. `timestamp` is `new Date().toISOString()`. */
    method Export(timestamp: string) returns (filename: Option<string>)
      ensures currentResultData.None? ==> filename.None?
      ensures currentResultData.Some? ==>
                filename == Some(ExportFilename(currentResultData.value.productType,
                                                currentResultData.value.market, timestamp))
    {
      if currentResultData.Some? {
        var data := currentResultData.value;
        filename := Some(ExportFilename(data.productType, data.market, timestamp));
      } else {
        filename := None;
      }
    }
  }
}
