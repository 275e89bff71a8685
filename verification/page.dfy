/** `Canteen.Page` (src/Canteen/Page.js): the handler object the site
    drives. Its `enter`, `exit` and `resize` are no-ops by default and appear
    in the site model only as calls in the effect trace; its `refresh` is
    the one method whose answer steers the site, so each handler carries it
    as a function. */
module Page {
  import opened Js

  /** A page handler: `site` set (the site has adopted it), `active`, the
      `uri` it was last given, and its `refresh(uri)` answer. */
  datatype Handler = Handler(attached: bool, active: bool, uri: Value, refresh: Value -> bool)

  /** The default `refresh`: always ask for a reload of the content. */
  function DefaultRefresh(uri: Value): (r: bool)
  {
    true
  }

  /** A freshly constructed page whose `refresh` behaves as `refresh`. */
  function New(refresh: Value -> bool): (h: Handler)
    ensures !h.attached && !h.active && h.uri == Null
    ensures h.refresh == refresh
  {
    Handler(false, false, Null, refresh)
  }

  /** A page that overrides nothing. */
  function Default(): (h: Handler)
    ensures !h.attached && !h.active && h.uri == Null
    ensures forall u :: h.refresh(u)
  {
    New(DefaultRefresh)
  }
}
