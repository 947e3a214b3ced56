/** The filter capability set and the request context handed to filters.
    A Go filter is any value; the router asks it at run time which method
    interfaces it implements. Here a filter carries those capabilities as a set. */
module Filters {

  /** The per-method interfaces a filter may implement. */
  datatype Capability = Any | Options | Head | Get | Post | Put | Patch | Delete | Trace | Connect

  /** A registered filter: an identity and the interfaces it implements. */
  datatype Filter = Filter(id: nat, caps: set<Capability>)

  /** The part of an HTTP request the router reads. */
  datatype Request = Request(verb: string, uri: string)

  /** What a filter receives: the request, the named fields and the query strings. */
  datatype Input = Input(request: Request, fields: map<string, string>, query: map<string, seq<string>>)

  /** One invocation of a filter through one of its interfaces. */
  datatype Call = Call(filter: Filter, cap: Capability, input: Input)

  /** The answers filters give: the `over` flag a filter returns when invoked. */
  type Handler = (Filter, Capability, Input) -> bool
}
