/** The parts of a search-engine response the handlers read, with every
    optional key as an Option. The engine itself is a parameter of the
    handlers: a function from the request body to its reply. */
module Engine {
  import opened Wrappers

  /** A stored field value: one string, or a list of strings. */
  datatype Value = Str(text: string) | Lines(lines: seq<string>)

  /** A hit's `_source`: field name to stored value. */
  type Source = map<string, Value>

  /** One element of `hits.hits`: `_id`, `_source` and `highlight.body`. A
      missing `highlight` and a `highlight` without `body` are both None. */
  datatype Hit = Hit(id: Option<string>, source: Option<Source>, highlightBody: Option<seq<string>>)

  /** `hits.total`: the usual `{"value": n}` object (whose `value` may be
      missing), or the bare integer some engine versions send. */
  datatype Total = TotalObject(value: Option<int>) | TotalNumber(count: int)

  /** The top-level `hits` object: its `total` and its `hits` list. */
  datatype HitsBlock = HitsBlock(total: Option<Total>, hits: Option<seq<Hit>>)

  /** What the search call gives back: a failure (network error, error
      status, unreadable body) with its message, or a decoded response
      whose `hits` key may be missing. */
  datatype EngineReply = Failed(message: string) | Replied(hitsBlock: Option<HitsBlock>)
}
