/** The token bucket filter as an object whose fields each event updates (adc/tbf.cc). */
module TokenBucketAgent {
  import opened Common
  import opened TokenBucket

  class Tbf {
    const c: Config
    var tokens: real
    var lastUpdateTime: real
    var q: seq<Pkt>
    var timer: Option<real>
    var init: bool

    ghost function View(): State
      reads this
    {
      State(tokens, lastUpdateTime, q, timer, init)
    }

    constructor (c: Config)
      ensures this.c == c && View() == Fresh
    {
      this.c := c;
      tokens, lastUpdateTime, q, timer, init := 0.0, 0.0, [], None, true;
    }

    method GetUpdatedTokens(now: real)
      modifies this
      ensures View() == Updated(c, old(View()), now)
    {
      tokens := tokens + Flow(c, lastUpdateTime, now);
      if tokens > c.bucket as real { tokens := c.bucket as real; }
      lastUpdateTime := now;
    }

    method Recv(p: Pkt, now: real) returns (out: Outcome)
      requires Sane(c)
      modifies this
      ensures (View(), out) == TokenBucket.Recv(c, old(View()), p, now)
    {
      if init {
        tokens := c.bucket as real;
        lastUpdateTime := now;
        init := false;
      }
      if |q| != 0 {
        if |q| < c.qlen {
          q := q + [p];
          return Queued;
        }
        return Dropped;
      }
      GetUpdatedTokens(now);
      var pktsize := Bits(p);
      if tokens >= pktsize {
        tokens := tokens - pktsize;
        return Sent(p);
      }
      if c.qlen != 0 {
        q := q + [p];
        assert q == [p];
        timer := Some(now + Wait(c, tokens, p));
        return Queued;
      }
      return Dropped;
    }

    /** None when the program aborts. */
    method Timeout(now: real) returns (out: Option<Pkt>)
      requires Sane(c)
      modifies this
      ensures out.None? <==> TokenBucket.Timeout(c, old(View()), now).None?
      ensures out.Some? ==> (View(), out.value) == TokenBucket.Timeout(c, old(View()), now).value
    {
      if |q| == 0 { return None; }
      var p := q[0];
      q := q[1..];
      GetUpdatedTokens(now);
      tokens := tokens - Bits(p);
      timer := None;
      if |q| != 0 { timer := Some(now + Wait(c, tokens, q[0])); }
      return Some(p);
    }
  }
}
