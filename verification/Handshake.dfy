/** One side of a connection below authentication: the transport with its two directions
    and the goroutines of the handshake layer (readLoop, kexLoop, writers), as steps. */
module Handshake {
  import opened Bytes
  import opened Options

  type Payload = seq<byte>

  /** A KEXINIT and the one key exchange message each side sends are known by what they say. */
  datatype Packet = KexInit(offer: nat) | KexData(body: nat) | NewKeys | App(payload: Payload)

  /** What determines the exchange hash H and the secret K. */
  datatype Transcript = Transcript(clientInit: nat, serverInit: nat, clientData: nat, serverData: nat)

  /** Keys come from K, H and the session identifier, which is the first H. */
  datatype Key = Plain | Keyed(exchange: Transcript, session: Transcript)

  /** A packet as it went out: its sequence number and the key it was written with. */
  datatype Record = Record(packet: Packet, seqNum: nat, key: Key)

  datatype Fault =
    | NoFault
    | MacFailure           // read with another sequence number or key than it was written with
    | BogusNewKeys         // NEWKEYS read and no cipher prepared
    | NoKeyMaterial        // NEWKEYS written and no cipher prepared
    | UnexpectedMessage    // out of turn; outside an exchange the source would hand it to the layer above
    | FirstNotKexInit      // the first packet of the peer is not a KEXINIT
    | FirstNotNewKeys      // the first packet for the layer above is not the session's start

  /** connectionState: `prepared` is the channel of capacity one holding the next cipher. */
  datatype Direction = Direction(seqNum: nat, key: Key, prepared: seq<Key>)

  datatype Transport = Transport(log: seq<Record>, writer: Direction, count: nat, reader: Direction)

  datatype Stage = Talking | Prepared | Switched | Finished

  /** kexLoop: waiting for a reason to exchange keys, exchanging, or pushing queued packets. */
  datatype KexLoop =
    | Collecting
    | Exchanging(other: nat, mine: Option<nat>, theirs: Option<nat>, stage: Stage)
    | Flushing

  /** What the layer above is given: that the session is established, or a packet. */
  datatype Item = SessionStart | Data(payload: Payload)

  /** readLoop: reading, putting a packet on the incoming channel, handing a KEXINIT to kexLoop, or waiting
      for the exchange to end. `first` says that no session was established when the KEXINIT was read. */
  datatype ReadLoop = Reading | Delivering(item: Item) | Offering(init: nat, first: bool) | Waiting(first: bool)

  /** Capacity of the incoming channel. */
  const CHAN_SIZE: nat := 16

  datatype Loops = Loops(
    kex: KexLoop,
    reader: ReadLoop,
    startKex: Option<nat>,
    requestKex: bool,
    done: bool,
    sentInit: Option<nat>,
    session: Option<Transcript>)

  datatype Apps = Apps(
    pending: seq<Payload>,
    incoming: seq<Item>,
    taken: seq<Item>,         // what the layer above has read; empty until waitSession returns
    // History, read by no operation.
    accepted: seq<Payload>,   // given to writePacket
    received: seq<Payload>)   // read by readLoop

  /** History: finished exchanges, and what each prepared exchange was derived from. */
  datatype History = History(rounds: nat, exchanges: seq<Transcript>)

  datatype Side = Side(isClient: bool, tr: Transport, loops: Loops, apps: Apps, past: History, fault: Fault)

  // ---- The transport ----

  /** connectionState.writePacket: the packet goes out under the current key; NEWKEYS then switches. */
  function Push(x: Side, p: Packet): Side
  {
    var w := x.tr.writer;
    var log := x.tr.log + [Record(p, w.seqNum, w.key)];
    var seqNum := (w.seqNum + 1) % U32_MODULUS;
    if !p.NewKeys? then
      x.(tr := x.tr.(log := log, writer := w.(seqNum := seqNum)))
    else if w.prepared == [] then
      x.(tr := x.tr.(log := log, writer := w.(seqNum := seqNum)), fault := NoKeyMaterial)
    else
      x.(tr := x.tr.(log := log, writer := Direction(seqNum, w.prepared[0], w.prepared[1..])))
  }

  predicate CanPull(x: Side, peer: seq<Record>)
  {
    x.tr.count < |peer|
  }

  /** connectionState.readPacket on the next record of the peer. */
  function Pull(x: Side, peer: seq<Record>): Side
    requires CanPull(x, peer)
  {
    var r := x.tr.reader;
    var rec := peer[x.tr.count];
    var seqNum := (r.seqNum + 1) % U32_MODULUS;
    if rec.seqNum != r.seqNum || rec.key != r.key then x.(fault := MacFailure)
    else if !rec.packet.NewKeys? then
      x.(tr := x.tr.(count := x.tr.count + 1, reader := r.(seqNum := seqNum)))
    else if r.prepared == [] then x.(fault := BogusNewKeys)
    else
      x.(tr := x.tr.(count := x.tr.count + 1, reader := Direction(seqNum, r.prepared[0], r.prepared[1..])))
  }

  /** Whatever the peer wrote, it is read exactly when it carries the number and the key the reader expects. */
  lemma PullFaults(x: Side, peer: seq<Record>)
    requires CanPull(x, peer) && x.fault == NoFault
    ensures var rec, y := peer[x.tr.count], Pull(x, peer);
            && (y.fault == MacFailure <==> rec.seqNum != x.tr.reader.seqNum || rec.key != x.tr.reader.key)
            && (y.fault == BogusNewKeys <==>
                  rec.seqNum == x.tr.reader.seqNum && rec.key == x.tr.reader.key && rec.packet.NewKeys? && x.tr.reader.prepared == [])
            && (y.fault == NoFault ==> y.tr.count == x.tr.count + 1)
            && (y.fault != NoFault ==> y.tr == x.tr)
  {
  }

  // ---- The layer above ----

  /** The layer above waits for the session before anything else, and an empty packet would be a panic. */
  predicate CanWrite(x: Side, p: Payload)
  {
    x.apps.taken != [] && p != [] && !x.loops.kex.Flushing?   // kexLoop holds the mutex then
  }

  /** writePacket: refused if it looks like msgKexInit or msgNewKeys; queued while an exchange is under way; `rekey`
      is a threshold running out. */
  function Write(x: Side, p: Payload, rekey: bool): Side
    requires CanWrite(x, p)
  {
    if p[0] == 20 || p[0] == 21 then x
    else
      var y := x.(apps := x.apps.(accepted := x.apps.accepted + [p]));
      if x.loops.sentInit.Some? then y.(apps := y.apps.(pending := x.apps.pending + [p]))
      else Push(y.(loops := x.loops.(requestKex := x.loops.requestKex || rekey)), App(p))
  }

  predicate CanTake(x: Side)
  {
    x.apps.incoming != []
  }

  /** readPacket; the first one is waitSession's. */
  function Take(x: Side): Side
    requires CanTake(x)
  {
    var item := x.apps.incoming[0];
    if x.apps.taken == [] && !item.SessionStart? then x.(fault := FirstNotNewKeys)
    else x.(apps := x.apps.(incoming := x.apps.incoming[1..], taken := x.apps.taken + [item]))
  }

  // ---- readLoop ----

  /** msgIgnore and msgDebug go no further. */
  predicate Ignored(p: Payload)
  {
    p != [] && (p[0] == 2 || p[0] == 4)
  }

  predicate CanRead(x: Side, peer: seq<Record>)
  {
    x.loops.reader.Reading? && CanPull(x, peer)
  }

  function Read(x: Side, peer: seq<Record>, rekey: bool): Side
    requires CanRead(x, peer)
  {
    var y := Pull(x, peer);
    var l := x.loops.(requestKex := x.loops.requestKex || rekey);
    var packet := peer[x.tr.count].packet;
    if y.fault != NoFault then y
    else if x.tr.count == 0 && !packet.KexInit? then y.(loops := l, fault := FirstNotKexInit)
    else
      match packet
      case App(p) =>
        y.(loops := if Ignored(p) then l else l.(reader := Delivering(Data(p))),
           apps := x.apps.(received := x.apps.received + [p]))
      case KexInit(i) => y.(loops := l.(reader := Offering(i, x.loops.session.None?)))
      case _ => y.(loops := l, fault := UnexpectedMessage)
  }

  /** There is room on the incoming channel. */
  predicate CanDeliver(x: Side)
  {
    x.loops.reader.Delivering? && |x.apps.incoming| < CHAN_SIZE
  }

  function Deliver(x: Side): Side
    requires CanDeliver(x)
  {
    x.(loops := x.loops.(reader := Reading), apps := x.apps.(incoming := x.apps.incoming + [x.loops.reader.item]))
  }

  predicate CanOffer(x: Side)
  {
    x.loops.reader.Offering? && x.loops.startKex.None?
  }

  function Offer(x: Side): Side
    requires CanOffer(x)
  {
    x.(loops := x.loops.(startKex := Some(x.loops.reader.init), reader := Waiting(x.loops.reader.first)))
  }

  predicate CanResume(x: Side)
  {
    x.loops.reader.Waiting? && x.loops.done
  }

  /** Only the first exchange is shown to the layer above. */
  function Resume(x: Side): Side
    requires CanResume(x)
  {
    x.(loops := x.loops.(reader := if x.loops.reader.first then Delivering(SessionStart) else Reading, done := false))
  }

  // ---- kexLoop ----

  /** sendKexInit sends one KEXINIT per exchange. */
  function SendInit(x: Side, offer: nat): Side
  {
    if x.loops.sentInit.Some? then x
    else
      var y := Push(x, KexInit(offer));
      y.(loops := x.loops.(sentInit := Some(offer)))
  }

  predicate CanAnswer(x: Side)
  {
    x.loops.kex.Collecting? && x.loops.startKex.Some?
  }

  function Answer(x: Side, offer: nat): Side
    requires CanAnswer(x)
  {
    var y := SendInit(x, offer);
    y.(loops := y.loops.(startKex := None, kex := Exchanging(x.loops.startKex.value, None, None, Talking)))
  }

  predicate CanInitiate(x: Side)
  {
    x.loops.kex.Collecting? && x.loops.requestKex
  }

  function Initiate(x: Side, offer: nat): Side
    requires CanInitiate(x)
  {
    var y := SendInit(x, offer);
    y.(loops := y.loops.(requestKex := false))
  }

  /** The client speaks first. */
  predicate CanSpeak(x: Side)
  {
    var k := x.loops.kex;
    k.Exchanging? && k.stage.Talking? && k.mine.None? && (x.isClient || k.theirs.Some?)
  }

  function Speak(x: Side, body: nat): Side
    requires CanSpeak(x)
  {
    var y := Push(x, KexData(body));
    y.(loops := x.loops.(kex := x.loops.kex.(mine := Some(body))))
  }

  predicate CanListen(x: Side, peer: seq<Record>)
  {
    var k := x.loops.kex;
    && k.Exchanging? && k.stage.Talking? && k.theirs.None? && (!x.isClient || k.mine.Some?)
    && CanPull(x, peer)
  }

  function Listen(x: Side, peer: seq<Record>): Side
    requires CanListen(x, peer)
  {
    var y := Pull(x, peer);
    var p := peer[x.tr.count].packet;
    if y.fault != NoFault then y
    else if p.KexData? then y.(loops := x.loops.(kex := x.loops.kex.(theirs := Some(p.body))))
    else y.(fault := UnexpectedMessage)
  }

  predicate ReadyToPrepare(x: Side)
  {
    var k := x.loops.kex;
    k.Exchanging? && k.stage.Talking? && k.mine.Some? && k.theirs.Some? && x.loops.sentInit.Some?
  }

  /** prepareKeyChange sends on two channels of capacity one. */
  predicate CanPrepare(x: Side)
  {
    ReadyToPrepare(x) && x.tr.reader.prepared == [] && x.tr.writer.prepared == []
  }

  function Outcome(x: Side): Transcript
    requires ReadyToPrepare(x)
  {
    var k := x.loops.kex;
    var me := x.loops.sentInit.value;
    if x.isClient then Transcript(me, k.other, k.mine.value, k.theirs.value)
    else Transcript(k.other, me, k.theirs.value, k.mine.value)
  }

  function Prepare(x: Side): Side
    requires CanPrepare(x)
  {
    var t := Outcome(x);
    var session := if x.loops.session.Some? then x.loops.session.value else t;
    var key := Keyed(t, session);
    x.(tr := x.tr.(reader := x.tr.reader.(prepared := [key]), writer := x.tr.writer.(prepared := [key])),
       loops := x.loops.(session := Some(session), kex := x.loops.kex.(stage := Prepared)),
       past := x.past.(exchanges := x.past.exchanges + [t]))
  }

  predicate CanSwitch(x: Side)
  {
    x.loops.kex.Exchanging? && x.loops.kex.stage.Prepared?
  }

  function Switch(x: Side): Side
    requires CanSwitch(x)
  {
    var y := Push(x, NewKeys);
    y.(loops := x.loops.(kex := x.loops.kex.(stage := Switched)))
  }

  predicate CanComplete(x: Side, peer: seq<Record>)
  {
    x.loops.kex.Exchanging? && x.loops.kex.stage.Switched? && CanPull(x, peer)
  }

  function Complete(x: Side, peer: seq<Record>): Side
    requires CanComplete(x, peer)
  {
    var y := Pull(x, peer);
    if y.fault != NoFault then y
    else if peer[x.tr.count].packet.NewKeys? then y.(loops := x.loops.(kex := x.loops.kex.(stage := Finished)))
    else y.(fault := UnexpectedMessage)
  }

  predicate CanFinish(x: Side)
  {
    x.loops.kex.Exchanging? && x.loops.kex.stage.Finished?
  }

  function Finish(x: Side): Side
    requires CanFinish(x)
  {
    x.(loops := x.loops.(kex := Flushing, sentInit := None, requestKex := false, done := true),
       past := x.past.(rounds := x.past.rounds + 1))
  }

  predicate CanFlush(x: Side)
  {
    x.loops.kex.Flushing?
  }

  function Flush(x: Side): Side
    requires CanFlush(x)
  {
    if x.apps.pending == [] then x.(loops := x.loops.(kex := Collecting))
    else Push(x.(apps := x.apps.(pending := x.apps.pending[1..])), App(x.apps.pending[0]))
  }

  // ---- What any peer can make a side do ----

  /** Whatever the peer wrote: a packet that cannot be read stops the loop as it is; the first one must be a KEXINIT; and
      after that only packets of the layer above and KEXINITs are for readLoop. */
  lemma ReadFaults(x: Side, peer: seq<Record>, rekey: bool)
    requires CanRead(x, peer) && x.fault == NoFault
    ensures var r, y, p := Read(x, peer, rekey), Pull(x, peer), peer[x.tr.count].packet;
            && (y.fault != NoFault ==> r == y)
            && (y.fault == NoFault ==>
                  && (r.fault == FirstNotKexInit <==> x.tr.count == 0 && !p.KexInit?)
                  && (r.fault == UnexpectedMessage <==> x.tr.count > 0 && (p.KexData? || p.NewKeys?))
                  && (r.loops.requestKex <==> x.loops.requestKex || rekey))
  {
  }

  /** During an exchange kexLoop accepts the one message whose turn it is, and room is needed for both ciphers. */
  lemma ExchangeFaults(x: Side, peer: seq<Record>)
    requires x.fault == NoFault
    ensures CanListen(x, peer) && Pull(x, peer).fault == NoFault ==>
              (Listen(x, peer).fault == UnexpectedMessage <==> !peer[x.tr.count].packet.KexData?)
    ensures CanComplete(x, peer) && Pull(x, peer).fault == NoFault ==>
              (Complete(x, peer).fault == UnexpectedMessage <==> !peer[x.tr.count].packet.NewKeys?)
    ensures CanListen(x, peer) && Pull(x, peer).fault != NoFault ==> Listen(x, peer) == Pull(x, peer)
    ensures CanComplete(x, peer) && Pull(x, peer).fault != NoFault ==> Complete(x, peer) == Pull(x, peer)
    ensures CanPrepare(x) ==> |x.tr.reader.prepared| == 0 && |x.tr.writer.prepared| == 0
    ensures CanTake(x) ==> (Take(x).fault == FirstNotNewKeys <==> x.apps.taken == [] && x.apps.incoming[0] != SessionStart)
  {
  }
}
