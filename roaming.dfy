/** `RoamingMonitor` of roaming.py: where each handset was last seen, learned from the base
    stations' system-information broadcasts and from login and logout events. */
module Roaming {
  import opened Frames

  /** One entry of `_locations`: the base station a handset was last seen on, and when. */
  datatype Location = Location(addr: Addr, time: real)

  /** `_locations`, keyed by the text of the handset's `address` element (None for an empty one). */
  type Locations = map<Text, Location>

  /** `get_addr(number)`: the recorded base station of a handset, None for an unknown one. */
  function Lookup(locs: Locations, number: Text): (r: Option<Addr>)
  {
    if number in locs then Some(locs[number].addr) else None
  }

  /** Every listed handset, mapped to `loc`. */
  function AllAt(exts: seq<Text>, loc: Location): map<Text, Location>
  {
    map e | e in exts :: loc
  }

  /** The table after a system-information frame listing `exts`: each listed handset is recorded at
      `loc`, whether it was known or not. */
  function Observe(locs: Locations, exts: seq<Text>, loc: Location): Locations
  {
    locs + AllAt(exts, loc)
  }

  /** What `process` leaves behind: the table and how the call ends. */
  datatype RoamingStep = RoamingStep(locations: Locations, result: DriverResult)

  /** `RoamingMonitor.process(xml_message, addr)` at time `now`. The two tests are separate `if`s, but
      a frame whose type is "systeminfo" fails the "login" test, so at most one branch acts. */
  function RoamingProcess(locs: Locations, f: Frame, addr: Addr, now: real): RoamingStep
  {
    var sysinfo := TypeIs(f, "request", "systeminfo");
    if sysinfo.None? then RoamingStep(locs, Raised)
    else if sysinfo.value then
      // `xml_message.find("senderdata").findall("address")`: raises without a senderdata element
      if f.senderAddresses.None? then RoamingStep(locs, Raised)
      else RoamingStep(Observe(locs, f.senderAddresses.value, Location(addr, now)), Returned(false))
    else
      var login := TypeIs(f, "request", "login");
      if login.None? then RoamingStep(locs, Raised)
      else if !login.value then RoamingStep(locs, Returned(false))
      else
        // `find("logindata").find("status")` and `find("senderdata").find("address")` raise only
        // when `logindata` or `senderdata` is missing; `status.text` is read at once, `address.text`
        // only in the "0" and "1" branches
        var status := TextAt(f, "logindata/status");
        var address := TextAt(f, "senderdata/address");
        if status.None? || f.senderAddresses.None? then RoamingStep(locs, Raised)
        else if status.value == Some("0") then
          if address.None? then RoamingStep(locs, Raised)
          else RoamingStep(if address.value in locs then locs - {address.value} else locs, Returned(false))
        else if status.value == Some("1") then
          if address.None? then RoamingStep(locs, Raised)
          else RoamingStep(locs[address.value := Location(addr, now)], Returned(false))
        else RoamingStep(locs, Returned(false))
  }

  /** The monitor never claims a frame: it returns False or raises, so the frame always goes on to
      the next driver. */
  lemma RoamingNeverClaims(locs: Locations, f: Frame, addr: Addr, now: real)
    ensures RoamingProcess(locs, f, addr, now).result != Returned(true)
    ensures RoamingProcess(locs, f, addr, now).result == Raised ==> RoamingProcess(locs, f, addr, now).locations == locs
  {
  }

  /** After a system-information frame from `addr`, every handset it lists is recorded at `addr` at
      time `now`; no entry is deleted and the handsets it does not list keep their entries. */
  lemma SysinfoEffect(locs: Locations, f: Frame, addr: Addr, now: real)
    requires TypeIs(f, "request", "systeminfo") == Some(true) && f.senderAddresses.Some?
    ensures var r := RoamingProcess(locs, f, addr, now).locations;
      && (forall e | e in f.senderAddresses.value :: e in r && r[e] == Location(addr, now))
      && (forall k | k in locs && k !in f.senderAddresses.value :: k in r && r[k] == locs[k])
      && r.Keys == locs.Keys + set e | e in f.senderAddresses.value
  {
  }

  /** A login with status "1" records the handset at `addr`, known or not; nothing else changes. */
  lemma LoginEffect(locs: Locations, f: Frame, addr: Addr, now: real, ext: Text)
    requires TypeIs(f, "request", "login") == Some(true)
    requires TextAt(f, "logindata/status") == Some(Some("1")) && TextAt(f, "senderdata/address") == Some(ext)
    requires f.senderAddresses.Some?  // the `senderdata` element holding that address
    ensures RoamingProcess(locs, f, addr, now) == RoamingStep(locs[ext := Location(addr, now)], Returned(false))
    ensures Lookup(RoamingProcess(locs, f, addr, now).locations, ext) == Some(addr)
    ensures forall k | k != ext :: Lookup(RoamingProcess(locs, f, addr, now).locations, k) == Lookup(locs, k)
  {
  }

  /** A logout (status "0") forgets the handset if it was known; every other handset is unchanged. */
  lemma LogoutEffect(locs: Locations, f: Frame, addr: Addr, now: real, ext: Text)
    requires TypeIs(f, "request", "login") == Some(true)
    requires TextAt(f, "logindata/status") == Some(Some("0")) && TextAt(f, "senderdata/address") == Some(ext)
    requires f.senderAddresses.Some?  // the `senderdata` element holding that address
    ensures RoamingProcess(locs, f, addr, now) == RoamingStep(locs - {ext}, Returned(false))
    ensures Lookup(RoamingProcess(locs, f, addr, now).locations, ext) == None
    ensures forall k | k != ext :: Lookup(RoamingProcess(locs, f, addr, now).locations, k) == Lookup(locs, k)
  {
    assert TypeIs(f, "request", "systeminfo") == Some(false);
    if ext !in locs {
      assert locs - {ext} == locs;
    }
  }

  /** A login event with any other status, and any frame that is neither a system-information nor
      a login request, leave the table as it is. */
  lemma RoamingUnchanged(locs: Locations, f: Frame, addr: Addr, now: real)
    requires TypeIs(f, "request", "systeminfo") == Some(false)
    requires TypeIs(f, "request", "login") == Some(false)
             || (&& TypeIs(f, "request", "login") == Some(true)
                 && TextAt(f, "logindata/status").Some?
                 && TextAt(f, "logindata/status").value != Some("0")
                 && TextAt(f, "logindata/status").value != Some("1"))
    ensures RoamingProcess(locs, f, addr, now).locations == locs
  {
  }

  /** A login event with any status but "0" or "1" is passed on without reading the handset's
      address, so it is declined even when `senderdata` has no `address` child; only a missing
      `logindata` or `senderdata` element, or a missing `status`, makes it raise. */
  lemma LoginOtherStatus(locs: Locations, f: Frame, addr: Addr, now: real)
    requires TypeIs(f, "request", "login") == Some(true)
    requires TextAt(f, "logindata/status").Some?
    requires TextAt(f, "logindata/status").value != Some("0") && TextAt(f, "logindata/status").value != Some("1")
    ensures RoamingProcess(locs, f, addr, now) ==
      RoamingStep(locs, if f.senderAddresses.None? then Raised else Returned(false))
  {
    assert TypeIs(f, "request", "systeminfo") == Some(false);
  }

  /** A login event raises exactly when its `status` or its `senderdata` is missing, or when the
      status is "0" or "1" and there is no `address` to act on. */
  lemma LoginRaises(locs: Locations, f: Frame, addr: Addr, now: real)
    requires TypeIs(f, "request", "login") == Some(true)
    ensures var status := TextAt(f, "logindata/status");
      RoamingProcess(locs, f, addr, now).result == Raised <==>
        || status.None? || f.senderAddresses.None?
        || ((status.value == Some("0") || status.value == Some("1")) && TextAt(f, "senderdata/address").None?)
  {
    assert TypeIs(f, "request", "systeminfo") == Some(false);
  }

  /** Times in the table never run ahead of the clock and, with a clock that does not go back, the
      time of a handset that stays in the table never decreases. */
  lemma TimesMonotone(locs: Locations, f: Frame, addr: Addr, now: real)
    requires forall k | k in locs :: locs[k].time <= now
    ensures var r := RoamingProcess(locs, f, addr, now).locations;
      && (forall k | k in r :: r[k].time <= now)
      && (forall k | k in r && k in locs :: locs[k].time <= r[k].time)
  {
  }

  /** One step of the system-information loop: recording one more listed handset. */
  lemma ObserveStep(locs: Locations, exts: seq<Text>, i: nat, loc: Location)
    requires i < |exts|
    ensures Observe(locs, exts[..i + 1], loc) == Observe(locs, exts[..i], loc)[exts[i] := loc]
  {
    assert exts[..i + 1] == exts[..i] + [exts[i]];
  }

  class RoamingMonitor {
    /** `_locations`. */
    var locations: Locations

    /** The state `__init__` sets up; its registration with the server is in module Dispatch. */
    constructor ()
      ensures locations == map[]
    {
      locations := map[];
    }

    /** `get_addr(number)`. */
    function GetAddr(number: Text): (r: Option<Addr>)
      reads this
      ensures r.Some? <==> number in locations
      ensures r.Some? ==> r.value == locations[number].addr
    {
      Lookup(locations, number)
    }

    /** `process(xml_message, addr)` at time `now`: the table and the result are those of
        `RoamingProcess`. */
    method Process(f: Frame, addr: Addr, now: real) returns (r: DriverResult)
      modifies this
      ensures RoamingStep(locations, r) == RoamingProcess(old(locations), f, addr, now)
    {
      var sysinfo := TypeIs(f, "request", "systeminfo");
      if sysinfo.None? {
        return Raised;
      }
      if sysinfo.value {
        if f.senderAddresses.None? {
          return Raised;
        }
        var exts := f.senderAddresses.value;
        var i := 0;
        while i < |exts|
          invariant 0 <= i <= |exts|
          invariant locations == Observe(old(locations), exts[..i], Location(addr, now))
        {
          var e := exts[i];
          ObserveStep(old(locations), exts, i, Location(addr, now));
          if e in locations {
            if locations[e].addr != addr {
              locations := locations[e := locations[e].(addr := addr)];
              locations := locations[e := locations[e].(time := now)];
            } else {
              locations := locations[e := locations[e].(time := now)];
            }
          } else {
            locations := locations[e := Location(addr, now)];
          }
          i := i + 1;
        }
        assert exts[..i] == exts;
      }
      var login := TypeIs(f, "request", "login");
      if login.None? {
        return Raised;
      }
      if login.value {
        var status := TextAt(f, "logindata/status");
        var address := TextAt(f, "senderdata/address");
        if status.None? || f.senderAddresses.None? {
          return Raised;
        }
        if status.value == Some("0") {
          if address.None? {
            return Raised;
          }
          if address.value in locations {
            locations := locations - {address.value};
          }
        } else if status.value == Some("1") {
          if address.None? {
            return Raised;
          }
          if address.value in locations {
            locations := locations[address.value := locations[address.value].(addr := addr)];
            locations := locations[address.value := locations[address.value].(time := now)];
          } else {
            locations := locations[address.value := Location(addr, now)];
          }
        }
      }
      return Returned(false);
    }
  }
}
