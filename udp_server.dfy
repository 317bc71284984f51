/** The state and the sending side of `UdpServer` (snom_messaging.py): the last origin, the ordered
    driver list and `send_dgram`'s address rule; and the splitting of a payload into documents.
    The server is generic in the driver type `D` so that drivers may hold the server they send
    through; `datagram_received`, which needs the concrete drivers, is in module Dispatch. */
module Udp {
  import opened Frames

  /** One datagram handed to the transport: the document and the `addr` argument of `sendto`. */
  datatype Datagram = Datagram(payload: string, dest: Option<Addr>)

  /** `out_addr` of `send_dgram`: the caller's address if it gives one, else the last origin.
      None exactly when the guard refuses to send. */
  function OutAddr(lastConnection: Option<Addr>, addr: Option<Addr>): (out: Option<Addr>)
    ensures out.None? <==> lastConnection.None? && addr.None?
    ensures addr.Some? ==> out == addr
    ensures addr.None? ==> out == lastConnection
  {
    if addr.Some? then addr else lastConnection
  }

  /** What `send_dgram(dgram, addr)` hands to the transport, sending to `out_addr` as evidently
      intended: nothing before any datagram was received unless the caller names a destination,
      otherwise one datagram to the computed destination. */
  function Transmit(lastConnection: Option<Addr>, addr: Option<Addr>, dgram: string): (r: seq<Datagram>)
    ensures r == [] <==> lastConnection.None? && addr.None?
    ensures r != [] ==> |r| == 1 && r[0].payload == dgram && r[0].dest == OutAddr(lastConnection, addr)
    ensures r != [] ==> r[0].dest.Some?
  {
    var out := OutAddr(lastConnection, addr);
    if out.None? then [] else [Datagram(dgram, out)]
  }

  /** `send_dgram` as written (snom_messaging.py:77-86): the guard is the same, but the transport
      is given the caller's `addr`, which is None for every call in the program, and the computed
      `out_addr` goes unused. */
  function TransmitAsWritten(lastConnection: Option<Addr>, addr: Option<Addr>, dgram: string): (r: seq<Datagram>)
    ensures r == [] <==> lastConnection.None? && addr.None?
    ensures r != [] ==> |r| == 1 && r[0].payload == dgram && r[0].dest == addr
  {
    if lastConnection.None? && addr.None? then [] else [Datagram(dgram, addr)]
  }

  /** The two agree whenever the caller names the destination; when it does not, the code as written
      passes None to the transport where the last origin was meant. */
  lemma SendDgramDestinationFinding(last: Addr, given: Addr, dgram: string)
    ensures TransmitAsWritten(Some(last), Some(given), dgram) == Transmit(Some(last), Some(given), dgram)
    ensures TransmitAsWritten(Some(last), None, dgram) == [Datagram(dgram, None)]
    ensures Transmit(Some(last), None, dgram) == [Datagram(dgram, Some(last))]
  {
  }

  // ---------------------------------------------------------------------------------------------
  // Splitting a payload on NUL

  const NUL: char := '\0'

  /** `s.split(sep)`: the pieces between separators, empty ones included; never an empty list. */
  function Split(s: string, sep: char): (pieces: seq<string>)
    ensures |pieces| >= 1
  {
    if s == [] then [""]
    else
      var rest := Split(s[1..], sep);
      if s[0] == sep then [""] + rest
      else [[s[0]] + rest[0]] + rest[1..]
  }

  /** `chr(sep).join(pieces)`. */
  function Join(pieces: seq<string>, sep: char): string
    requires |pieces| >= 1
  {
    if |pieces| == 1 then pieces[0] else pieces[0] + [sep] + Join(pieces[1..], sep)
  }

  /** Splitting loses nothing: joining the pieces gives the payload back. */
  lemma {:induction false} SplitJoin(s: string, sep: char)
    ensures Join(Split(s, sep), sep) == s
  {
    if s != [] {
      SplitJoin(s[1..], sep);
      if s[0] == sep {
        JoinEmptyFirst(Split(s[1..], sep), sep);
      } else {
        JoinExtendFirst(s[0], Split(s[1..], sep), sep);
      }
      assert [s[0]] + s[1..] == s;
    }
  }

  /** An empty first piece contributes only the separator. */
  lemma JoinEmptyFirst(rest: seq<string>, sep: char)
    requires |rest| >= 1
    ensures Join([""] + rest, sep) == [sep] + Join(rest, sep)
  {
    assert ([""] + rest)[1..] == rest;
  }

  /** A character put in front of the first piece comes out in front of the joined text. */
  lemma JoinExtendFirst(c: char, rest: seq<string>, sep: char)
    requires |rest| >= 1
    ensures Join([[c] + rest[0]] + rest[1..], sep) == [c] + Join(rest, sep)
  {
    var p := [[c] + rest[0]] + rest[1..];
    if |rest| > 1 {
      var j := Join(rest[1..], sep);
      assert p[1..] == rest[1..];
      assert Join(p, sep) == ([c] + rest[0]) + [sep] + j;
      assert ([c] + rest[0]) + [sep] + j == [c] + (rest[0] + [sep] + j);
    }
  }

  /** No piece holds the separator. */
  lemma {:induction false} SplitPiecesPlain(s: string, sep: char)
    ensures forall i | 0 <= i < |Split(s, sep)| :: sep !in Split(s, sep)[i]
  {
    if s != [] {
      var rest := Split(s[1..], sep);
      SplitPiecesPlain(s[1..], sep);
      var p := Split(s, sep);
      forall i | 0 <= i < |p| ensures sep !in p[i] {
        if s[0] == sep {
          if i > 0 {
            assert p[i] == rest[i - 1];
          }
        } else if i == 0 {
          assert sep !in rest[0];
        } else {
          assert p[i] == rest[i];
        }
      }
    }
  }

  // ---------------------------------------------------------------------------------------------
  // The server object

  class UdpServer<D> {
    /** `_lastConnection`: the origin of the latest datagram, None before the first. */
    var lastConnection: Option<Addr>
    /** `_drivers`: the drivers in registration order, which is the order they are offered frames. */
    var drivers: seq<D>
    /** Every datagram handed to the transport so far, in order. */
    ghost var sent: seq<Datagram>

    constructor ()
      ensures lastConnection == None && drivers == [] && sent == []
    {
      lastConnection := None;
      drivers := [];
      sent := [];
    }

    /** `register_driver`: the new driver goes to the end of the chain. */
    method RegisterDriver(driver: D)
      modifies this
      ensures drivers == old(drivers) + [driver]
      ensures lastConnection == old(lastConnection) && sent == old(sent)
    {
      drivers := drivers + [driver];
    }

    /** `send_dgram(dgram, addr)`, sending to the computed `out_addr`. */
    method SendDgram(dgram: string, addr: Option<Addr>)
      modifies this
      ensures sent == old(sent) + Transmit(old(lastConnection), addr, dgram)
      ensures lastConnection == old(lastConnection) && drivers == old(drivers)
    {
      if lastConnection.None? && addr.None? {
        // "Writing to UDP-Socket before anything was received. Will not send!"
      } else {
        var outAddr := if addr.None? then lastConnection else addr;
        sent := sent + [Datagram(dgram, outAddr)];
      }
    }

    /** `send_dgram(dgram, addr)` as written: the transport gets `addr`, not `out_addr`. */
    method SendDgramAsWritten(dgram: string, addr: Option<Addr>)
      modifies this
      ensures sent == old(sent) + TransmitAsWritten(old(lastConnection), addr, dgram)
      ensures lastConnection == old(lastConnection) && drivers == old(drivers)
    {
      if lastConnection.None? && addr.None? {
      } else {
        var outAddr := if addr.None? then lastConnection else addr;
        sent := sent + [Datagram(dgram, addr)];
      }
    }
  }
}
