/** A one-shot packet capture: circular buffers that stop taking packets at the moment they become full. */
module PacketCapture {
  import opened Octets

  /** A captured packet, of which the payload may be missing. */
  datatype Sample = Sample(id: nat, payload: Option<seq<Octet>>)

  datatype Capture = Capture(capacity: nat, receiving: bool, full: bool, parsed: seq<Sample>, raw: seq<seq<Octet>>)

  /** Pushing to a circular buffer drops the oldest element once the buffer is full. */
  function Push<T>(buffer: seq<T>, capacity: nat, x: T): seq<T> {
    if capacity == 0 then buffer
    else if |buffer| < capacity then buffer + [x]
    else buffer[1..] + [x]
  }

  /** Without room for packets a capture counts as finished from the start. */
  function StartCapture(capacity: nat): Capture {
    Capture(capacity, capacity != 0, capacity == 0, [], [])
  }

  function AddPacket(c: Capture, p: Sample): Capture {
    if !c.receiving then c
    else
      var last := |c.parsed| + 1 == c.capacity || |c.raw| + 1 == c.capacity;
      Capture(c.capacity, !last, c.full || last, Push(c.parsed, c.capacity, p),
              if p.payload.Some? && p.payload.value != [] then Push(c.raw, c.capacity, p.payload.value) else c.raw)
  }

  class PacketBucket {
    const capacity: nat
    var receiving: bool
    var full: bool
    var parsed: seq<Sample>
    var raw: seq<seq<Octet>>

    function Value(): Capture
      reads this
    {
      Capture(capacity, receiving, full, parsed, raw)
    }

    constructor (capacity: nat)
      ensures Value() == StartCapture(capacity)
    {
      this.capacity, receiving, full, parsed, raw := capacity, capacity != 0, capacity == 0, [], [];
    }

    method Add(p: Sample) returns (taken: bool)
      modifies this
      ensures taken <==> old(receiving)
      ensures Value() == AddPacket(old(Value()), p)
    {
      if !receiving {
        return false;
      }
      if |parsed| + 1 == capacity || |raw| + 1 == capacity {
        receiving := false;
        full := true;
      }
      parsed := Push(parsed, capacity, p);
      if p.payload.Some? && p.payload.value != [] {
        raw := Push(raw, capacity, p.payload.value);
      }
      return true;
    }
  }

  function AfterPackets(capacity: nat, ps: seq<Sample>): Capture {
    if ps == [] then StartCapture(capacity) else AddPacket(AfterPackets(capacity, ps[..|ps| - 1]), ps[|ps| - 1])
  }

  function Payloads(ps: seq<Sample>): (payloads: seq<seq<Octet>>)
    ensures |payloads| <= |ps|
  {
    if ps == [] then []
    else
      var p := ps[|ps| - 1];
      Payloads(ps[..|ps| - 1]) + if p.payload.Some? && p.payload.value != [] then [p.payload.value] else []
  }

  /** The capture that has taken exactly these packets. */
  function Holding(capacity: nat, taken: seq<Sample>): Capture {
    Capture(capacity, |taken| < capacity, |taken| >= capacity, taken, Payloads(taken))
  }

  lemma TakesOneMore(capacity: nat, taken: seq<Sample>, p: Sample)
    requires |taken| < capacity
    ensures AddPacket(Holding(capacity, taken), p) == Holding(capacity, taken + [p])
  {
    assert (taken + [p])[..|taken|] == taken;
  }

  function FirstPackets(capacity: nat, ps: seq<Sample>): seq<Sample> {
    if |ps| < capacity then ps else ps[..capacity]
  }

  lemma FirstOfLonger(capacity: nat, ps: seq<Sample>)
    requires ps != []
    ensures var n := |ps| - 1;
            && (n < capacity ==> FirstPackets(capacity, ps[..n]) == ps[..n] && FirstPackets(capacity, ps) == ps[..n] + [ps[n]])
            && (n >= capacity ==> FirstPackets(capacity, ps[..n]) == FirstPackets(capacity, ps))
  {
  }

  /**
    * A capture holds exactly the first packets it was offered, in order and with their payloads, and is full, taking
    * no more, exactly when it was offered as many as it can hold: nothing is ever overwritten.
    */
  lemma {:induction false} CaptureHoldsFirstPackets(capacity: nat, ps: seq<Sample>)
    ensures var c := AfterPackets(capacity, ps);
            && c.parsed == FirstPackets(capacity, ps) && c.raw == Payloads(FirstPackets(capacity, ps))
            && (c.full <==> |ps| >= capacity) && c.receiving == !c.full && c.capacity == capacity
  {
    hide AddPacket, Payloads, FirstPackets;
    if ps == [] {
      NothingTaken(capacity);
    } else {
      var n := |ps| - 1;
      CaptureHoldsFirstPackets(capacity, ps[..n]);
      FirstOfLonger(capacity, ps);
      if n < capacity {
        TakesOneMore(capacity, ps[..n], ps[n]);
      } else {
        FullTakesNothing(AfterPackets(capacity, ps[..n]), ps[n]);
      }
    }
  }

  lemma NothingTaken(capacity: nat)
    ensures FirstPackets(capacity, []) == [] && Payloads([]) == []
  {
  }

  lemma FullTakesNothing(c: Capture, p: Sample)
    requires !c.receiving
    ensures AddPacket(c, p) == c
  {
  }

  lemma OnePayloadMore(ps: seq<Sample>, p: Sample)
    ensures Payloads(ps + [p]) == Payloads(ps) + match p.payload
                                                 case None => []
                                                 case Some(b) => if |b| > 0 then [b] else []
  {
    assert (ps + [p])[..|ps|] == ps;
    match p.payload {
      case None =>
      case Some(b) => assert |b| > 0 <==> b != [];
    }
  }

  /** Until the capture is full, a packet with octets of payload adds exactly these; one without adds nothing. */
  lemma PayloadTaken(capacity: nat, ps: seq<Sample>, p: Sample)
    ensures var before, after := AfterPackets(capacity, ps).raw, AfterPackets(capacity, ps + [p]).raw;
            after == before + match p.payload
                              case None => []
                              case Some(b) => if |b| > 0 && |ps| < capacity then [b] else []
  {
    hide AfterPackets, Payloads, FirstPackets;
    CaptureHoldsFirstPackets(capacity, ps);
    CaptureHoldsFirstPackets(capacity, ps + [p]);
    assert (ps + [p])[..|ps|] == ps;
    FirstOfLonger(capacity, ps + [p]);
    OnePayloadMore(ps, p);
    if |ps| < capacity {
      assert FirstPackets(capacity, ps) == ps;
      assert FirstPackets(capacity, ps + [p]) == ps + [p];
    } else {
      assert FirstPackets(capacity, ps + [p]) == FirstPackets(capacity, ps);
    }
  }
}
