/** Writing to a socket that takes what it likes: the loops of `send_all` in
    hft_test/src/hft_main.cpp and of `send_report` in hft_test/src/simex_server.cpp.
    */
module Sockets {
  import opened Basics
  import opened Framing

  predicate Takes(kernel: nat -> nat, k: nat)
  {
    kernel(k) > 0
  }

  ghost predicate TakesAfter(kernel: nat -> nat, k: nat)
  {
    exists j: nat :: j >= k && Takes(kernel, j)
  }

  /** What the calls to `send` take at most, call by call; nothing when a call is interrupted
      or would block.  However often that happens, some later call takes something. */
  type Kernel = kernel: nat -> nat | forall k: nat :: TakesAfter(kernel, k) witness OneByOne()

  function OneByOne(): (kernel: nat -> nat)
    ensures forall k: nat :: TakesAfter(kernel, k)
  {
    var kernel := (_: nat) => 1;
    assert forall k: nat :: TakesAfter(kernel, k) by {
      forall k: nat ensures TakesAfter(kernel, k) {
        assert Takes(kernel, k);
      }
    }
    kernel
  }

  class Socket {
    const kernel: Kernel
    var calls: nat
    var written: seq<Byte>      // everything the peer will read

    constructor (kernel: Kernel)
      ensures this.kernel == kernel && written == []
    {
      this.kernel, calls, written := kernel, 0, [];
    }

    /** Whatever the calls take, exactly the frame is written. */
    method SendAll(frame: seq<Byte>)
      modifies this
      ensures written == old(written) + frame
    {
      var sent := 0;
      assert TakesAfter(kernel, calls);
      ghost var next: nat :| next >= calls && Takes(kernel, next);
      while sent < |frame|
        invariant 0 <= sent <= |frame| && written == old(written) + frame[..sent]
        invariant next >= calls && Takes(kernel, next)
        decreases |frame| - sent, next - calls
      {
        var left := |frame| - sent;
        var n := if kernel(calls) < left then kernel(calls) else left;
        ghost var now := calls;
        calls := calls + 1;
        written := written + frame[sent..sent + n];
        assert frame[..sent + n] == frame[..sent] + frame[sent..sent + n];
        ConcatAssociative(old(written), frame[..sent], frame[sent..sent + n]);
        sent := sent + n;
        if n > 0 {
          assert TakesAfter(kernel, calls);
          next :| next >= calls && Takes(kernel, next);
        } else {
          assert !Takes(kernel, now);
        }
      }
      assert frame[..sent] == frame;
    }
  }
}
