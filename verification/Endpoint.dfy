/** One end of a channel as a value, and what each operation of the source does to it.
    Goroutines that are inside Write or Read show up as writers and readers, so every
    interleaving of their lock-protected sections can be expressed. */
module Endpoint {
  import opened Bytes
  import opened Options

  const CHANNEL_MAX_PACKET: nat := 0x8000
  const CHANNEL_WINDOW_SIZE: nat := 64 * CHANNEL_MAX_PACKET
  const MIN_PACKET_LENGTH: nat := 9

  datatype Msg =
    | Open(window: nat, maxPacket: nat)
    | Confirm(window: nat, maxPacket: nat)
    | Data(code: nat, length: nat, bytes: seq<byte>)   // `length` is what the packet says
    | Garbled                                          // octets that the transport had already encrypted
    | Adjust(additional: nat)
    | Eof
    | Close

  /** Why the mux loop would give up on the connection. */
  datatype Fault =
    | NoFault
    | InvalidChannel
    | UnexpectedMessage
    | DuplicateResponse
    | InvalidMaxPacketSize
    | ExceedsMaximumPayload
    | WrongPacketLength
    | RemoteWroteTooMuch
    | InvalidWindowUpdate
    | UnreadablePacket

  /** A goroutine in WriteExtended: before reserving, holding `space` bytes of the window with its packet not yet
      or already filled in, or about to put its packet back. `buf` is the array its packet lives in. */
  datatype Writer =
    | NoWrite
    | Ready(code: nat, todo: seq<byte>, buf: Option<nat>)
    | Holding(code: nat, todo: seq<byte>, space: nat, buf: Option<nat>, filled: bool)
    | Ending(code: nat, buf: Option<nat>)

  /** The array behind a packet: the length it announces and its data, as long as the capacity. The transport may
      encrypt in place, which spoils it until it is filled again. */
  datatype Packet = Packet(code: nat, length: nat, data: seq<byte>, spoiled: bool)

  /** All arrays ever made for packets, and packetPool: the array kept for each code. */
  datatype Pool = Pool(arrays: seq<Packet>, kept: map<nat, nat>)
  {
    function Get(code: nat): Option<nat>
    {
      if code in kept then Some(kept[code]) else None
    }

    function Put(code: nat, buf: Option<nat>): Pool
    {
      this.(kept := if buf.Some? then kept[code := buf.value] else kept - {code})
    }
  }

  /** A goroutine in ReadExtended: it took `n` bytes, then raised myWindow, then sends the adjustment. */
  datatype Reader = NoRead | Consumed(n: nat) | Granted(n: nat)

  /** Standard output (code 0) and standard error (code 1). */
  datatype Streams = Streams(out: seq<byte>, err: seq<byte>) {
    function Get(code: nat): seq<byte>
    {
      if code == 0 then out else if code == 1 then err else []
    }

    function Append(code: nat, s: seq<byte>): Streams
    {
      if code == 0 then this.(out := out + s) else if code == 1 then this.(err := err + s) else this
    }

    function Drop(code: nat, n: nat): Streams
      requires n <= |Get(code)|
    {
      if code == 0 then this.(out := out[n..]) else if code == 1 then this.(err := err[n..]) else this
    }

    function Total(): nat
    {
      |out| + |err|
    }
  }

  const NO_STREAMS := Streams([], [])

  /** The sending half: `win` and `closed` are the fields of remoteWin. */
  datatype Sender = Sender(
    win: nat,
    closed: bool,
    maxRemote: nat,
    writers: seq<Writer>,
    pool: Pool,
    // History, read by no operation.
    sent: Streams,      // bytes that Write counts as written
    forfeited: nat)     // bytes reserved and then not sent

  /** The receiving half. */
  datatype Receiver = Receiver(
    myWindow: nat,
    maxIncoming: nat,
    pending: Streams,
    eof: bool,
    readers: seq<Reader>,
    // History, read by no operation.
    got: Streams,       // bytes returned by Read
    discarded: nat,     // bytes received on other extended codes
    refused: nat)       // credit raised and then not sent

  datatype Life = Life(
    present: bool,      // newChannel has run
    outbound: bool,
    decided: bool,
    removed: bool,      // no longer in the channel list
    sentEof: bool,
    sentClose: bool,
    overlapped: bool)   // history: CloseWrite ran while a Write was in progress

  datatype End = End(life: Life, tx: Sender, rx: Receiver, fault: Fault)

  datatype Out = Out(end: End, msgs: seq<Msg>)

  function Min(a: nat, b: nat): nat
  {
    if a < b then a else b
  }

  // ---- writePacket, and the window ----

  /** Nothing follows a close; a close is remembered. */
  function Emit(e: End, m: Msg): Out
  {
    if e.life.sentClose then Out(e, [])
    else Out(e.(life := e.life.(sentClose := m.Close?)), [m])
  }

  /** `window.add`: false when the 32-bit sum wraps. */
  function WindowAdd(win: nat, n: nat): (bool, nat)
  {
    if n == 0 then (true, win)
    else
      var sum := (win + n) % U32_MODULUS;
      if sum < n then (false, win) else (true, sum)
  }

  /** The length asked of the window: the remaining length is truncated to 32 bits. */
  function Chunk(maxRemote: nat, remaining: nat): nat
  {
    Min(maxRemote, remaining % U32_MODULUS)
  }

  // ---- WriteExtended, in its pieces ----

  /** A Write that may still send something. */
  predicate Idle(ws: seq<Writer>)
  {
    forall i :: 0 <= i < |ws| ==> ws[i].NoWrite? || ws[i].Ending?
  }

  function NextWriter(code: nat, todo: seq<byte>, buf: Option<nat>): Writer
  {
    if todo == [] then Ending(code, buf) else Ready(code, todo, buf)
  }

  predicate CanStartWrite(e: End, t: nat)
  {
    t < |e.tx.writers| && e.tx.writers[t].NoWrite? && e.life.decided
  }

  /** The packet kept for the code is taken and stays where it is. */
  function StartWrite(e: End, t: nat, code: nat, data: seq<byte>): End
    requires CanStartWrite(e, t)
  {
    if e.life.sentEof then e
    else e.(tx := e.tx.(writers := e.tx.writers[t := NextWriter(code, data, e.tx.pool.Get(code))]))
  }

  predicate CanReserve(e: End, t: nat)
  {
    t < |e.tx.writers| && e.tx.writers[t].Ready? && (e.tx.win > 0 || e.tx.closed)
  }

  /** `window.reserve` takes what there is; on a closed window the bytes it took are lost. */
  function ReserveTx(tx: Sender, t: nat): Sender
    requires t < |tx.writers| && tx.writers[t].Ready?
  {
    var w := tx.writers[t];
    var space := Min(tx.win, Chunk(tx.maxRemote, |w.todo|));
    if tx.closed then
      tx.(win := tx.win - space, forfeited := tx.forfeited + space, writers := tx.writers[t := NoWrite])
    else
      tx.(win := tx.win - space, writers := tx.writers[t := Holding(w.code, w.todo, space, w.buf, false)])
  }

  function Reserve(e: End, t: nat): End
    requires CanReserve(e, t)
  {
    e.(tx := ReserveTx(e.tx, t))
  }

  /** The writer's array exists and holds `n` bytes. */
  predicate HasRoom(pool: Pool, buf: Option<nat>, n: nat)
  {
    buf.Some? && buf.value < |pool.arrays| && n <= |pool.arrays[buf.value].data|
  }

  predicate CanFill(e: End, t: nat)
  {
    && t < |e.tx.writers| && e.tx.writers[t].Holding? && !e.tx.writers[t].filled
    && e.tx.writers[t].space <= |e.tx.writers[t].todo|
  }

  /** Header and data are copied into the packet, in place if its array is large enough. */
  function FillTx(tx: Sender, t: nat): (r: Sender)
    requires t < |tx.writers| && tx.writers[t].Holding? && tx.writers[t].space <= |tx.writers[t].todo|
    ensures r.sent == tx.sent && r.win == tx.win && r.closed == tx.closed && r.maxRemote == tx.maxRemote && r.forfeited == tx.forfeited
    ensures |r.writers| == |tx.writers| && forall i :: 0 <= i < |tx.writers| && i != t ==> r.writers[i] == tx.writers[i]
    ensures var w := r.writers[t]; w.Holding? && w.filled && w == tx.writers[t].(filled := true, buf := w.buf)
  {
    var w, arrays := tx.writers[t], tx.pool.arrays;
    var bytes := w.todo[..w.space];
    if HasRoom(tx.pool, w.buf, w.space) then
      var b := w.buf.value;
      tx.(pool := tx.pool.(arrays := arrays[b := Packet(arrays[b].code, w.space, bytes + arrays[b].data[w.space..], false)]),
          writers := tx.writers[t := w.(filled := true)])
    else
      tx.(pool := tx.pool.(arrays := arrays + [Packet(w.code, w.space, bytes, false)]),
          writers := tx.writers[t := w.(filled := true, buf := Some(|arrays|))])
  }

  function Fill(e: End, t: nat): End
    requires CanFill(e, t)
  {
    e.(tx := FillTx(e.tx, t))
  }

  predicate CanSend(e: End, t: nat)
  {
    && t < |e.tx.writers| && e.tx.writers[t].Holding? && e.tx.writers[t].filled
    && e.tx.writers[t].space <= |e.tx.writers[t].todo|
    && HasRoom(e.tx.pool, e.tx.writers[t].buf, e.tx.writers[t].space)
  }

  /** What the first `space` bytes of an array say on the wire. */
  function Sealed(p: Packet, space: nat): (m: Msg)
    requires space <= |p.data|
    ensures m.Garbled? || m.Data?
  {
    if p.spoiled then Garbled else Data(p.code, p.length, p.data[..space])
  }

  /** The packet goes out as its array stands. `spoils` says that the transport encrypts it in place. */
  function Send(e: End, t: nat, spoils: bool): Out
    requires CanSend(e, t)
  {
    var w := e.tx.writers[t];
    if e.life.sentClose then
      Out(e.(tx := e.tx.(forfeited := e.tx.forfeited + w.space, writers := e.tx.writers[t := NoWrite])), [])
    else
      var b := w.buf.value;
      var p := e.tx.pool.arrays[b];
      Out(e.(tx := e.tx.(sent := e.tx.sent.Append(w.code, w.todo[..w.space]),
                         writers := e.tx.writers[t := NextWriter(w.code, w.todo[w.space..], w.buf)],
                         pool := e.tx.pool.(arrays := e.tx.pool.arrays[b := p.(spoiled := p.spoiled || spoils)]))),
          [Sealed(p, w.space)])
  }

  /** A timeout or a halt ends a Write that holds nothing. */
  predicate CanAbandon(e: End, t: nat)
  {
    t < |e.tx.writers| && e.tx.writers[t].Ready?
  }

  function Abandon(e: End, t: nat): End
    requires CanAbandon(e, t)
  {
    e.(tx := e.tx.(writers := e.tx.writers[t := NoWrite]))
  }

  predicate CanEndWrite(e: End, t: nat)
  {
    t < |e.tx.writers| && e.tx.writers[t].Ending?
  }

  /** A Write that has sent everything keeps its packet for the next one. */
  function EndWrite(e: End, t: nat): End
    requires CanEndWrite(e, t)
  {
    var w := e.tx.writers[t];
    e.(tx := e.tx.(writers := e.tx.writers[t := NoWrite], pool := e.tx.pool.Put(w.code, w.buf)))
  }

  // ---- ReadExtended ----

  predicate CanRead(e: End, t: nat, code: nat, n: nat)
  {
    && t < |e.rx.readers| && e.rx.readers[t].NoRead? && e.life.decided
    && code <= 1 && n > 0 && e.rx.pending.Get(code) != []
  }

  function Read(e: End, t: nat, code: nat, n: nat): End
    requires CanRead(e, t, code, n)
  {
    var waiting := e.rx.pending.Get(code);
    var k := Min(n, |waiting|);
    e.(rx := e.rx.(pending := e.rx.pending.Drop(code, k),
                   got := e.rx.got.Append(code, waiting[..k]),
                   readers := e.rx.readers[t := Consumed(k)]))
  }

  /** Read reports end of file. */
  predicate ReadsEof(e: End, code: nat)
  {
    code <= 1 && e.rx.pending.Get(code) == [] && e.rx.eof
  }

  predicate CanGrant(e: End, t: nat)
  {
    t < |e.rx.readers| && e.rx.readers[t].Consumed?
  }

  function Grant(e: End, t: nat): End
    requires CanGrant(e, t)
  {
    var n := e.rx.readers[t].n;
    e.(rx := e.rx.(myWindow := (e.rx.myWindow + n) % U32_MODULUS, readers := e.rx.readers[t := Granted(n)]))
  }

  predicate CanCredit(e: End, t: nat)
  {
    t < |e.rx.readers| && e.rx.readers[t].Granted?
  }

  function Credit(e: End, t: nat): Out
    requires CanCredit(e, t)
  {
    var n := e.rx.readers[t].n;
    var rx := e.rx.(readers := e.rx.readers[t := NoRead]);
    if e.life.sentClose then Out(e.(rx := rx.(refused := rx.refused + n)), [])
    else Emit(e.(rx := rx), Adjust(n))
  }

  // ---- Accept, CloseWrite, Close ----

  predicate CanAccept(e: End)
  {
    e.life.present && !e.life.outbound && !e.life.decided
  }

  function Accept(e: End): Out
    requires CanAccept(e)
  {
    Emit(e.(rx := e.rx.(maxIncoming := CHANNEL_MAX_PACKET), life := e.life.(decided := true)),
         Confirm(e.rx.myWindow, CHANNEL_MAX_PACKET))
  }

  function CloseWrite(e: End): Out
  {
    Emit(e.(life := e.life.(sentEof := true, overlapped := e.life.overlapped || !Idle(e.tx.writers))), Eof)
  }

  function CloseEnd(e: End): Out
  {
    Emit(e, Close)
  }

  // ---- The mux loop handing over one packet ----

  function NewChannel(e: End): End
  {
    e.(life := e.life.(present := true), rx := e.rx.(myWindow := CHANNEL_WINDOW_SIZE))
  }

  predicate BadMaxPacket(n: nat)
  {
    n < MIN_PACKET_LENGTH || n > 0x8000_0000
  }

  /** The checks on a data packet that announces `length` bytes and carries `actual`. */
  function DataFault(rx: Receiver, length: nat, actual: nat): Fault
  {
    if length == 0 then NoFault
    else if length > rx.maxIncoming then ExceedsMaximumPayload
    else if length != actual then WrongPacketLength
    else if rx.myWindow < length then RemoteWroteTooMuch
    else NoFault
  }

  /** Bytes on a code other than 0 and 1 are charged to the window and dropped. */
  function TakeData(rx: Receiver, code: nat, bytes: seq<byte>): Receiver
    requires |bytes| <= rx.myWindow
  {
    rx.(myWindow := rx.myWindow - |bytes|,
        pending := rx.pending.Append(code, bytes),
        discarded := rx.discarded + if code > 1 then |bytes| else 0)
  }

  function HandleData(e: End, code: nat, length: nat, bytes: seq<byte>): End
  {
    var fault := DataFault(e.rx, length, |bytes|);
    if fault != NoFault then e.(fault := fault)
    else if length == 0 then e
    else e.(rx := TakeData(e.rx, code, bytes))
  }

  /** The peer's first grant of window. */
  function Connect(e: End, window: nat, maxPacket: nat): End
  {
    if BadMaxPacket(maxPacket) then e.(fault := InvalidMaxPacketSize)
    else e.(tx := e.tx.(maxRemote := maxPacket, win := WindowAdd(e.tx.win, window).1))
  }

  function Receive(e: End, m: Msg): Out
  {
    if m.Open? then
      if e.life.present then Out(e.(fault := UnexpectedMessage), [])
      else Out(Connect(NewChannel(e), m.window, m.maxPacket), [])
    else if !e.life.present || e.life.removed then Out(e.(fault := InvalidChannel), [])
    else ReceiveOnChannel(e, m)
  }

  function ReceiveOnChannel(e: End, m: Msg): Out
    requires !m.Open?
  {
    match m
    case Confirm(window, maxPacket) =>
      if !e.life.outbound then Out(e.(fault := UnexpectedMessage), [])
      else if e.life.decided then Out(e.(fault := DuplicateResponse), [])
      else Out(Connect(e.(life := e.life.(decided := true)), window, maxPacket), [])
    case Data(code, length, bytes) => Out(HandleData(e, code, length, bytes), [])
    case Garbled => Out(e.(fault := UnreadablePacket), [])
    case Adjust(n) =>
      var (ok, win) := WindowAdd(e.tx.win, n);
      Out(if ok then e.(tx := e.tx.(win := win)) else e.(fault := InvalidWindowUpdate), [])
    case Eof => Out(e.(rx := e.rx.(eof := true)), [])
    case Close =>
      Out(e.(life := e.life.(removed := true, sentClose := true),
             rx := e.rx.(eof := true),
             tx := e.tx.(closed := true)),
          if e.life.sentClose then [] else [Close])
  }

  // ---- What any peer can make an end do ----

  /** Sixty-four packets of 32 kB. */
  lemma Sizes()
    ensures CHANNEL_MAX_PACKET == 32768 && CHANNEL_WINDOW_SIZE == 2097152
  {
  }

  /** A Write fails, and returns, when it finds the window closed or a close sent: nothing goes out, and the window it had
      taken is lost. */
  lemma WriteFails(e: End, t: nat, spoils: bool)
    ensures CanReserve(e, t) && e.tx.closed ==>
              var r := Reserve(e, t);
              r.tx.writers == e.tx.writers[t := NoWrite] && r.tx.sent == e.tx.sent && r.tx.win + r.tx.forfeited == e.tx.win + e.tx.forfeited
    ensures CanSend(e, t) && e.life.sentClose ==>
              var out := Send(e, t, spoils);
              && out.msgs == [] && out.end.tx.writers == e.tx.writers[t := NoWrite] && out.end.tx.sent == e.tx.sent
              && out.end.tx.forfeited == e.tx.forfeited + e.tx.writers[t].space && out.end.tx.win == e.tx.win
  {
  }

  /** The message reaches an open channel of the end. */
  predicate OnChannel(e: End, m: Msg)
  {
    !m.Open? && e.life.present && !e.life.removed
  }

  /** Whatever the peer sends, and however it came to that: the mux loop gives up exactly for these reasons. */
  lemma FaultIff(e: End, m: Msg)
    requires e.fault == NoFault && e.tx.win < U32_MODULUS && (m.Adjust? ==> m.additional < U32_MODULUS)
    ensures var fault := Receive(e, m).end.fault;
            var answers := m.Confirm? && OnChannel(e, m) && e.life.outbound && !e.life.decided;
            && (fault == InvalidChannel <==> !m.Open? && !OnChannel(e, m))
            && (fault == UnexpectedMessage <==> (m.Open? && e.life.present) || (m.Confirm? && OnChannel(e, m) && !e.life.outbound))
            && (fault == DuplicateResponse <==> m.Confirm? && OnChannel(e, m) && e.life.outbound && e.life.decided)
            && (fault == InvalidMaxPacketSize <==>
                  ((m.Open? && !e.life.present) || answers) && (m.maxPacket < 9 || m.maxPacket > 0x8000_0000))
            && (fault == InvalidWindowUpdate <==> m.Adjust? && OnChannel(e, m) && e.tx.win + m.additional >= U32_MODULUS)
            && (fault == UnreadablePacket <==> m.Garbled? && OnChannel(e, m))
            && (fault == ExceedsMaximumPayload <==> m.Data? && OnChannel(e, m) && m.length > e.rx.maxIncoming)
            && (fault == WrongPacketLength <==>
                  m.Data? && OnChannel(e, m) && 0 < m.length <= e.rx.maxIncoming && m.length != |m.bytes|)
            && (fault == RemoteWroteTooMuch <==>
                  m.Data? && OnChannel(e, m) && e.rx.myWindow < m.length <= e.rx.maxIncoming && m.length == |m.bytes|)
  {
    if m.Adjust? {
      var sum := e.tx.win + m.additional;
      assert sum % U32_MODULUS == if sum < U32_MODULUS then sum else sum - U32_MODULUS;
    }
  }
}
