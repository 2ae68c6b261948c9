/** The three objects of the reservation signalling as they are written: admission control by the sum of
    the reserved rates (param-adc.cc), the link (salink.cc) and the source (sa.cc). */
module ReservationAgent {
  import opened Common
  import opened Reservation

  class ParamAdc {
    var resvRate: real
    const utilization: real
    const bandwidth: real

    constructor (u: real, b: real)
      ensures resvRate == 0.0 && utilization == u && bandwidth == b
    {
      resvRate, utilization, bandwidth := 0.0, u, b;
    }

    method AdmitFlow(r: real) returns (ok: bool)
      modifies this
      ensures ok <==> old(resvRate) + r <= utilization * bandwidth
      ensures resvRate == old(resvRate) + if ok then r else 0.0
    {
      ok := resvRate + r <= utilization * bandwidth;
      if ok { resvRate := resvRate + r; }
    }

    method RejAction(p: real)
      modifies this
      ensures resvRate == old(resvRate) - p
    {
      resvRate := resvRate - p;
    }

    method TeardownAction(p: real)
      modifies this
      ensures resvRate == old(resvRate) - p
    {
      resvRate := resvRate - p;
    }
  }

  /** Lookup finds the first slot. */
  lemma {:induction false} LookupIs(pending: seq<int>, id: int, j: nat)
    requires j <= |pending| && (forall i :: 0 <= i < j ==> pending[i] != id) && (j < |pending| ==> pending[j] == id)
    ensures Lookup(pending, id) == if j == |pending| then -1 else j
  {
    var k := Lookup(pending, id);
  }

  class SALink {
    const adc: ParamAdc
    const pending: array<int>
    var numfl: int

    ghost predicate Valid() { pending.Length == NFLOWS }

    ghost function View(): Link
      reads this, adc, pending
    {
      Link(adc.resvRate, adc.utilization * adc.bandwidth, pending[..], numfl)
    }

    constructor (a: ParamAdc)
      ensures Valid() && adc == a && fresh(pending) && forall j :: 0 <= j < NFLOWS ==> pending[j] == FREE
    {
      adc, numfl := a, -1;
      pending := new int[NFLOWS](_ => FREE);
    }

    method Lookup(id: int) returns (j: int)
      ensures j == Reservation.Lookup(pending[..], id)
    {
      var i := 0;
      while i < pending.Length
        invariant 0 <= i <= pending.Length && forall k :: 0 <= k < i ==> pending[k] != id
      {
        if pending[i] == id {
          LookupIs(pending[..], id, i);
          return i;
        }
        i := i + 1;
      }
      LookupIs(pending[..], id, i);
      return -1;
    }

    /** The first free slot; None when there is none and the program exits. */
    method GetNxt() returns (j: Option<nat>)
      ensures j == var k := Reservation.Lookup(pending[..], FREE); if k == -1 then None else Some(k)
    {
      var i := 0;
      while i < pending.Length
        invariant 0 <= i <= pending.Length && forall k :: 0 <= k < i ==> pending[k] != FREE
      {
        if pending[i] == FREE {
          LookupIs(pending[..], FREE, i);
          return Some(i);
        }
        i := i + 1;
      }
      LookupIs(pending[..], FREE, i);
      return None;
    }

    /** A packet passes the link; None when the program exits. */
    method Recv(p: Packet) returns (out: Option<Packet>)
      requires Valid()
      modifies this, adc, pending
      ensures out.None? <==> Pass(old(View()), p).None?
      ensures out.Some? ==> (View(), out.value) == Pass(old(View()), p).value
    {
      out := Some(p);
      match p.kind
      case Request =>
        var decide := adc.AdmitFlow(p.rate);
        out := Some(p.(decision := p.decision && decide));
        if decide {
          var j := GetNxt();
          if j.None? { return None; }
          pending[j.value] := p.flow;
          numfl := numfl + 1;
        }
      case Accept =>
      case Reject =>
      case Confirm =>
        var j := Lookup(p.flow);
        if j != -1 {
          if !p.decision {
            adc.RejAction(p.rate);
            numfl := numfl - 1;
          }
          pending[j] := FREE;
        }
      case Teardown =>
        adc.TeardownAction(p.rate);
        numfl := numfl - 1;
    }
  }

  class SaAgent {
    const flow: nat
    const rate: real
    var running: bool

    constructor (f: nat, r: real)
      ensures flow == f && rate == r && !running
    {
      flow, rate, running := f, r, false;
    }

    /** start, with a traffic generator attached. */
    method SendReq() returns (p: Packet)
      ensures p == Packet(Request, flow, rate, true)
    {
      p := Packet(Request, flow, rate, true);
    }

    /** A TEARDOWN leaves whether or not the flow had been accepted. */
    method Stop() returns (p: Packet)
      modifies this
      ensures !running && p == Packet(Teardown, flow, rate, true)
    {
      p := Packet(Teardown, flow, rate, true);
      if running { running := false; }
    }

    /** The answer goes back as the CONFIRM; the source runs if its flow was accepted. */
    method Recv(p: Packet) returns (out: Option<Packet>)
      modifies this
      ensures running == p.decision
      ensures out == if p.kind == Accept || p.kind == Reject then Some(TurnAround(p)) else None
    {
      out := None;
      if p.kind == Accept || p.kind == Reject { out := Some(p.(kind := Confirm)); }
      running := p.decision;
    }
  }
}
