/** From the octets of a packet to the channel that gets it. */
module Dispatch {
  import opened Bytes
  import opened Options
  import Channel
  import Endpoint
  import Mux

  /** Where onePacket takes a packet, by its type and, for a channel, by the identifier behind it. */
  datatype Route = ToOpen | ToGlobal | TooShort | ToChannel(id: nat)

  function RouteOf(packet: seq<byte>): Route
    requires packet != []
  {
    if packet[0] == 90 then ToOpen
    else if packet[0] == 80 || packet[0] == 81 || packet[0] == 82 then ToGlobal
    else if |packet| < 5 then TooShort
    else ToChannel(GetU32(packet[1..]))
  }

  /** The numbers of section 4.1.2 of RFC 4250: 80 to 82 are global, 90 opens a channel, and anything else is for the
      channel named in the next four octets. */
  lemma RoutesExact(packet: seq<byte>)
    requires packet != []
    ensures RouteOf(packet) == ToGlobal <==> 80 <= packet[0] <= 82
    ensures RouteOf(packet) == ToOpen <==> packet[0] == 90
    ensures RouteOf(packet) == TooShort <==> !(80 <= packet[0] <= 82) && packet[0] != 90 && |packet| <= 4
    ensures RouteOf(packet).ToChannel? ==> RouteOf(packet).id == GetU32(packet[1..])
  {
    hide GetU32;
  }

  /** What handleData makes of a data packet is what the endpoint machine says, and depends neither on who the
      recipient is nor on how the packet came to be. */
  lemma DataJudged(p: seq<byte>, id: nat, code: nat, length: nat, bytes: seq<byte>, rx: Endpoint.Receiver)
    requires Channel.IsDataPacket(p, id, code, length, bytes) && |bytes| < U32_MODULUS
    ensures var v := Channel.Judge(p, rx.maxIncoming, rx.myWindow);
            && Channel.FaultOf(v) == Endpoint.DataFault(rx, length, |bytes|)
            && (length != 0 && Endpoint.DataFault(rx, length, |bytes|) == Endpoint.NoFault ==> v == Channel.Take(code, bytes, length))
  {
  }

  /** A Write on a channel reaches the peer's channel: in every run of the peer's mux, each packet of the Write is taken to
      the live channel whose identifier the writer was given, to no other, and is judged there by its length and data. */
  lemma WriteReachesChannel(before: seq<seq<byte>>, wire: seq<seq<byte>>, id: word, code: word, data: seq<byte>,
                            chunks: seq<seq<byte>>, i: nat, offset: nat, steps: seq<Mux.Step>, c: Mux.Chan, rx: Endpoint.Receiver)
    requires Channel.Carried(before, wire, id, code, data, chunks) && i < |chunks| && |chunks[i]| < U32_MODULUS
    requires Mux.Words(steps)
    requires var s := Mux.Run(Mux.Init(offset), steps); Mux.IsLive(s, c) && c in s.info.ids && s.info.ids[c] == id
    ensures var s := Mux.Run(Mux.Init(offset), steps);
            var p := wire[|before| + i];
            && p != [] && RouteOf(p) == ToChannel(id) && Mux.Get(s.chans, s.offset, id) == Some(c)
            && (forall d: Mux.Chan :: Mux.Get(s.chans, s.offset, id) == Some(d) ==> d == c)
            && (chunks[i] != [] && Endpoint.DataFault(rx, |chunks[i]|, |chunks[i]|) == Endpoint.NoFault ==>
                  Channel.Judge(p, rx.maxIncoming, rx.myWindow) == Channel.Take(code, chunks[i], |chunks[i]|))
  {
    hide Mux.Run, Channel.Judge;
    Mux.RunsAreSafe(offset, steps, id, c);
    DataJudged(wire[|before| + i], id, code, |chunks[i]|, chunks[i], rx);
  }
}
