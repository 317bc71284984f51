/** `ConsumerDriver` of consumer.py: claims the frames the base stations send that no other driver
    uses, so that they do not reach the "no driver is interested" warning. */
module Consumer {
  import opened Frames

  /** The request types the consumer claims. */
  const SquelchedTypes: set<string> := {"systeminfo", "login", "alarm"}

  /** `ConsumerDriver.process(xml_message, addr)`: three tests in turn, each reading the "type"
      attribute only when the tag is "request". */
  function Squelch(f: Frame): DriverResult
  {
    var sysinfo := TypeIs(f, "request", "systeminfo");
    if sysinfo.None? then Raised
    else if sysinfo.value then Returned(true)
    else
      var login := TypeIs(f, "request", "login");
      if login.None? then Raised
      else if login.value then Returned(true)
      else
        var alarm := TypeIs(f, "request", "alarm");
        if alarm.None? then Raised
        else if alarm.value then Returned(true)
        else Returned(false)
  }

  /** The consumer claims exactly the system-information, login and alarm requests, raises exactly
      on a request without a "type" attribute, and declines everything else, job requests and job
      responses included. */
  lemma SquelchClassifies(f: Frame)
    ensures Squelch(f) == Returned(true) <==>
      f.tag == "request" && "type" in f.attrib && f.attrib["type"] in SquelchedTypes
    ensures Squelch(f) == Raised <==> f.tag == "request" && "type" !in f.attrib
    ensures f.tag != "request" ==> Squelch(f) == Returned(false)
  {
  }

  /** The frames the message store handles are never claimed here. */
  lemma SquelchDeclinesJobs(f: Frame)
    requires TypeIs(f, "request", "job") == Some(true) || TypeIs(f, "response", "job") == Some(true)
    ensures Squelch(f) == Returned(false)
  {
  }
}
