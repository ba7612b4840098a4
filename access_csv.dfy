/**
 * `AccessCSV`: the holder of the currently loaded dataset, shared by the request handlers. It is
 * four fields, each written by its own setter and read by its own getter.
 */
module DatasetAccess {
  import opened Wrappers
  import opened CreatorFromRow

  class AccessCsv {
    /** `null` (`None`) until a dataset is stored. */
    var parsedText: Option<seq<Row>>
    var header: Option<Row>
    var loaded: bool
    var hasHeaders: bool

    /** A fresh holder: nothing loaded, no headers, no data and no header list. */
    constructor()
      ensures !loaded && !hasHeaders
      ensures parsedText == None && header == None
    {
      loaded := false;
      hasHeaders := false;
      parsedText := None;
      header := None;
    }

    method SetParsedText(text: Option<seq<Row>>)
      modifies this
      ensures parsedText == text
      ensures header == old(header) && loaded == old(loaded) && hasHeaders == old(hasHeaders)
    {
      parsedText := text;
    }

    method SetHeaders(header: Option<Row>)
      modifies this
      ensures this.header == header
      ensures parsedText == old(parsedText) && loaded == old(loaded) && hasHeaders == old(hasHeaders)
    {
      this.header := header;
    }

    method SetLoaded(loaded: bool)
      modifies this
      ensures this.loaded == loaded
      ensures parsedText == old(parsedText) && header == old(header) && hasHeaders == old(hasHeaders)
    {
      this.loaded := loaded;
    }

    method SetHasHeaders(hasHeaders: bool)
      modifies this
      ensures this.hasHeaders == hasHeaders
      ensures parsedText == old(parsedText) && header == old(header) && loaded == old(loaded)
    {
      this.hasHeaders := hasHeaders;
    }

    /** Getters return the stored value and change nothing (no `modifies` clause). */
    method GetLoaded() returns (b: bool)
      ensures b == loaded
    {
      b := loaded;
    }

    method GetHeader() returns (h: Option<Row>)
      ensures h == header
    {
      h := header;
    }

    method GetParsedText() returns (t: Option<seq<Row>>)
      ensures t == parsedText
    {
      t := parsedText;
    }

    method GetHasHeaders() returns (b: bool)
      ensures b == hasHeaders
    {
      b := hasHeaders;
    }
  }

  /**
   * Storing a dataset with the four setters, then reading it back with the four getters, returns
   * what was stored: no setter disturbs another's field.
   */
  method LoadThenRead(store: AccessCsv, text: seq<Row>, header: Row, hasHeaders: bool)
    returns (loaded: bool, readText: Option<seq<Row>>, readHeader: Option<Row>, readHasHeaders: bool)
    modifies store
    ensures loaded && readText == Some(text) && readHeader == Some(header) && readHasHeaders == hasHeaders
  {
    store.SetParsedText(Some(text));
    store.SetHeaders(Some(header));
    store.SetHasHeaders(hasHeaders);
    store.SetLoaded(true);
    loaded := store.GetLoaded();
    readText := store.GetParsedText();
    readHeader := store.GetHeader();
    readHasHeaders := store.GetHasHeaders();
  }
}
