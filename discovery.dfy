/**
 * The UDP discovery responder of `CCS.createUDPSocket`: each datagram is
 * received into a 12-byte buffer, and a `CCS FOUND` reply goes back to the
 * sender exactly when the received bytes read `CCS DISCOVER`.
 */
module Discovery {
  import opened Wrappers

  type byte = x: int | 0 <= x < 256

  /** The size of the receive buffer; longer payloads are cut to it. */
  const BufferSize: nat := 12

  /** The bytes `String.getBytes` gives for a text of ASCII characters. */
  function Ascii(s: string): (r: seq<byte>)
    requires forall i | 0 <= i < |s| :: s[i] as int < 128
    ensures |r| == |s|
    ensures forall i | 0 <= i < |s| :: r[i] == s[i] as int
  {
    seq(|s|, i requires 0 <= i < |s| => s[i] as int)
  }

  const Probe: seq<byte> := Ascii("CCS DISCOVER")
  const Found: seq<byte> := Ascii("CCS FOUND")

  /** The sender of a datagram: its address and port. */
  datatype Endpoint = Endpoint(address: seq<byte>, port: int)

  datatype Datagram = Datagram(peer: Endpoint, payload: seq<byte>)

  /** What `receive` leaves in the buffer: the first `BufferSize` bytes of the payload. */
  function Received(payload: seq<byte>): (r: seq<byte>)
    ensures |r| <= BufferSize && |r| <= |payload| && r == payload[..|r|]
    ensures |r| == |payload| || |r| == BufferSize
  {
    if |payload| <= BufferSize then payload else payload[..BufferSize]
  }

  /** `message.equals("CCS DISCOVER")` on the received bytes. */
  predicate IsProbe(payload: seq<byte>) {
    Received(payload) == Probe
  }

  /**
   * Because of the cut, a payload is taken for a probe exactly when it starts
   * with the twelve bytes of `CCS DISCOVER`, whatever follows them.
   */
  lemma ProbePrefix(payload: seq<byte>)
    ensures IsProbe(payload) <==> |payload| >= |Probe| && payload[..|Probe|] == Probe
  {
    assert |Probe| == BufferSize;
  }

  /** The datagram sent back for `d`, if any. */
  function Reply(d: Datagram): (r: Option<Datagram>)
    ensures r.Some? <==> IsProbe(d.payload)
    ensures r.Some? ==> r.value.peer == d.peer && r.value.payload == Found
  {
    if IsProbe(d.payload) then Some(Datagram(d.peer, Found)) else None
  }

  /** Any bytes sent after the probe are lost in the cut, so such a datagram is still answered. */
  lemma ProbeWithTrailingBytes(d: Datagram, extra: seq<byte>)
    requires d.payload == Probe + extra
    ensures Reply(d) == Some(Datagram(d.peer, Found))
  {
    ProbePrefix(d.payload);
    assert d.payload[..|Probe|] == Probe;
  }

  /** Every reply sent for a stream of received datagrams, in order. */
  function Replies(received: seq<Datagram>): (r: seq<Datagram>)
    ensures |r| <= |received|
    ensures forall j | 0 <= j < |r| :: r[j].payload == Found
  {
    if received == [] then []
    else
      var earlier := Replies(received[..|received| - 1]);
      match Reply(received[|received| - 1])
      case Some(d) => earlier + [d]
      case None => earlier
  }

  /** The received datagrams that are probes, in the order they arrived. */
  function Probes(received: seq<Datagram>): (r: seq<Datagram>)
    ensures |r| <= |received|
    ensures forall j | 0 <= j < |r| :: IsProbe(r[j].payload)
  {
    if received == [] then []
    else
      var earlier := Probes(received[..|received| - 1]);
      var d := received[|received| - 1];
      if IsProbe(d.payload) then earlier + [d] else earlier
  }

  /** Every probe picked out was received, and every probe received is picked out. */
  lemma {:induction false} ProbesOfStream(received: seq<Datagram>)
    ensures forall j | 0 <= j < |Probes(received)| :: Probes(received)[j] in received
    ensures forall i | 0 <= i < |received| && IsProbe(received[i].payload) :: received[i] in Probes(received)
  {
    if received != [] {
      var init := received[..|received| - 1];
      ProbesOfStream(init);
      assert forall x | x in init :: x in received;
      forall i | 0 <= i < |received| - 1 && IsProbe(received[i].payload)
        ensures received[i] in Probes(received)
      {
        assert received[i] == init[i];
      }
    }
  }

  /**
   * Each probe is answered once and nothing else is answered: the j-th reply
   * carries `CCS FOUND` to the sender of the j-th probe, so every reply goes
   * to the sender of a probe received.
   */
  lemma {:induction false} RepliesTally(received: seq<Datagram>)
    ensures |Replies(received)| == |Probes(received)|
    ensures forall j | 0 <= j < |Replies(received)| ::
              Replies(received)[j] == Datagram(Probes(received)[j].peer, Found)
  {
    if received != [] {
      var init, d := received[..|received| - 1], received[|received| - 1];
      RepliesTally(init);
      forall j | 0 <= j < |Replies(received)|
        ensures Replies(received)[j] == Datagram(Probes(received)[j].peer, Found)
      {
        if j < |Replies(init)| {
          assert Replies(received)[j] == Replies(init)[j];
          assert Probes(received)[j] == Probes(init)[j];
        }
      }
    }
  }

  /** `e` sent one of the probes received. */
  predicate SentProbe(received: seq<Datagram>, e: Endpoint) {
    exists i | 0 <= i < |received| :: IsProbe(received[i].payload) && received[i].peer == e
  }

  /** No reply goes anywhere but to the sender of a probe. */
  lemma RepliesGoToProbes(received: seq<Datagram>)
    ensures forall j | 0 <= j < |Replies(received)| :: SentProbe(received, Replies(received)[j].peer)
  {
    RepliesTally(received);
    ProbesOfStream(received);
    forall j | 0 <= j < |Replies(received)|
      ensures SentProbe(received, Replies(received)[j].peer)
    {
      var p := Probes(received)[j];
      var i :| 0 <= i < |received| && received[i] == p;
      assert IsProbe(received[i].payload) && received[i].peer == Replies(received)[j].peer;
    }
  }

  /** The responder loop over the datagrams it receives. */
  method Serve(received: seq<Datagram>) returns (sent: seq<Datagram>)
    ensures sent == Replies(received)
  {
    sent := [];
    for n := 0 to |received|
      invariant sent == Replies(received[..n])
    {
      assert received[..n + 1][..n] == received[..n];
      var reply := Reply(received[n]);
      if reply.Some? {
        sent := sent + [reply.value];
      }
    }
    assert received[..|received|] == received;
  }
}
