/** Values that every part of the gateway shares: decoded protocol frames, UDP addresses,
    and the two ways a driver's `process` call can end. */
module Frames {

  datatype Option<+T> = None | Some(value: T)

  /** The `.text` of an XML element: None when the element holds no character data
      (ElementTree gives None for `<status></status>` and `<status/>`). */
  type Text = Option<string>

  /** A UDP origin or destination, the (host, port) pair asyncio hands to `datagram_received`. */
  datatype Addr = Addr(host: string, port: int)

  /** One decoded protocol document, reduced to the lookups the drivers make on it.
      - `tag`: the root element's tag ("request", "response").
      - `attrib`: the root element's attributes; "type" holds the subtype ("job", "login", ...).
      - `texts`: for each lookup path the drivers use ("externalid", "senderdata/address",
        "jobdata/status", "logindata/status", ...), the text of the element it finds; a path absent
        from the map finds no element, so reading its `.text` raises AttributeError.
      - `senderAddresses`: the texts of the `address` children of the `senderdata` element, in
        document order; None when there is no `senderdata` element.
      - `hasJobdata`: whether `find("./jobdata")` is truthy, i.e. a `jobdata` element exists and has
        at least one child element.
      A frame parsed from a real document keeps these consistent, which the lemmas do not need: a
      text at "senderdata/address" is the first of `senderAddresses`, so that element exists; a text
      at "jobdata/status" means the `jobdata` element has a child, so `hasJobdata` holds. A lemma
      that reads both views of the same element, such as a login's address, requires both. */
  datatype Frame = Frame(
    tag: string,
    attrib: map<string, string>,
    texts: map<string, Text>,
    senderAddresses: Option<seq<Text>>,
    hasJobdata: bool)

  /** How a driver's `process(xml_message, addr)` call ends: it returns a boolean (true claims the
      frame and stops the dispatch chain), or it raises. */
  datatype DriverResult = Returned(claimed: bool) | Raised

  /** `frame.tag == tag and frame.attrib["type"] == typ`. The `and` short-circuits, so the attribute
      is only read when the tag matches; a missing "type" attribute then raises KeyError (None). */
  function TypeIs(f: Frame, tag: string, typ: string): Option<bool>
  {
    if f.tag != tag then Some(false)
    else if "type" !in f.attrib then None
    else Some(f.attrib["type"] == typ)
  }

  /** `find(path).text`: None when no element is found, since `.text` of None raises. */
  function TextAt(f: Frame, path: string): Option<Text>
  {
    if path in f.texts then Some(f.texts[path]) else None
  }
}
