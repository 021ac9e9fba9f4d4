/** The channel object: data packets octet by octet, the send window, and the
    methods that update them in place. */
module Channel {
  import opened Bytes
  import opened Endpoint
  import opened Buffer
  import Messages

  const MSG_DATA: byte := 94
  const MSG_EXTENDED_DATA: byte := 95
  const MSG_WINDOW_ADJUST: byte := 93
  const MSG_CLOSE: byte := 97

  // ---- Data packets ----

  /** A data packet that announces `length` bytes and carries `bytes`. */
  function EncodePacket(id: nat, code: nat, length: nat, bytes: seq<byte>): seq<byte>
  {
    if code == 0 then [MSG_DATA] + PutU32(id) + PutU32(length) + bytes
    else [MSG_EXTENDED_DATA] + PutU32(id) + PutU32(code) + PutU32(length) + bytes
  }

  function EncodeData(id: nat, code: nat, bytes: seq<byte>): seq<byte>
  {
    EncodePacket(id, code, |bytes|, bytes)
  }

  datatype Verdict =
    | Malformed
    | Ignored
    | TooLong
    | WrongLength
    | TooMuch
    | Take(code: nat, bytes: seq<byte>, charge: nat)

  function HeaderLength(packet: seq<byte>): nat
    requires packet != []
  {
    if packet[0] == MSG_EXTENDED_DATA then 13 else 9
  }

  /** What handleData decides about a packet, in the order it decides. */
  function Judge(packet: seq<byte>, maxIncoming: nat, myWindow: nat): Verdict
    requires packet != []
  {
    var h := HeaderLength(packet);
    if |packet| < h then Malformed
    else
      var code := if h == 13 then GetU32(packet[5..]) else 0;
      var length := GetU32(packet[h - 4..]);
      var data := packet[h..];
      if length == 0 then Ignored
      else if length > maxIncoming then TooLong
      else if length != |data| % U32_MODULUS then WrongLength
      else if myWindow < length then TooMuch
      else Take(code, data, length)
  }

  /** The verdict as the endpoint model sees it. */
  function FaultOf(v: Verdict): Fault
  {
    match v
    case TooLong => ExceedsMaximumPayload
    case WrongLength => WrongPacketLength
    case TooMuch => RemoteWroteTooMuch
    case _ => NoFault
  }

  /** Section 5.2 of RFC 4254, octet by octet: the type, the recipient, the code if there is one, the length
      announced and the data. */
  predicate IsDataPacket(p: seq<byte>, id: nat, code: nat, length: nat, bytes: seq<byte>)
  {
    && |p| >= 9 && GetU32(p[1..]) == id
    && if code == 0 then p[0] == 94 && GetU32(p[5..]) == length && p[9..] == bytes
       else p[0] == 95 && |p| >= 13 && GetU32(p[5..]) == code && GetU32(p[9..]) == length && p[13..] == bytes
  }

  /** That is what is encoded. */
  lemma EncodedIsData(id: nat, code: nat, length: nat, bytes: seq<byte>)
    requires code < U32_MODULUS && length < U32_MODULUS
    ensures IsDataPacket(EncodePacket(id, code, length, bytes), id % U32_MODULUS, code, length, bytes)
  {
    hide GetU32, PutU32;
    var p := EncodePacket(id, code, length, bytes);
    assert p[1..] == PutU32(id) + p[5..];
    GetPutU32(id, p[5..]);
    if code == 0 {
      assert p[5..] == PutU32(length) + bytes;
      GetPutU32(length, bytes);
      assert p[9..] == p[5..][4..];
    } else {
      assert p[5..] == PutU32(code) + p[9..];
      GetPutU32(code, p[9..]);
      assert p[9..] == PutU32(length) + bytes;
      GetPutU32(length, bytes);
      assert p[13..] == p[9..][4..];
    }
  }

  /** A packet is malformed exactly when it is shorter than the header its type asks for. */
  lemma MalformedIff(packet: seq<byte>, maxIncoming: nat, myWindow: nat)
    requires packet != []
    ensures Judge(packet, maxIncoming, myWindow) == Malformed <==> |packet| < 9 || (packet[0] == 95 && |packet| < 13)
  {
  }

  /** A packet is judged by handleData exactly as the endpoint model judges what it announces and carries: same
      code, same bytes, same reason to refuse. */
  lemma JudgeInvertsEncode(id: nat, code: nat, length: nat, bytes: seq<byte>, rx: Receiver)
    requires code < U32_MODULUS && length < U32_MODULUS && |bytes| < U32_MODULUS
    ensures var v := Judge(EncodePacket(id, code, length, bytes), rx.maxIncoming, rx.myWindow);
            && FaultOf(v) == DataFault(rx, length, |bytes|)
            && (v == Ignored <==> length == 0)
            && (length != 0 && DataFault(rx, length, |bytes|) == NoFault ==> v == Take(code, bytes, length))
  {
    hide EncodePacket, GetU32;
    EncodedIsData(id, code, length, bytes);
  }

  function EncodeAdjust(id: nat, n: nat): seq<byte>
  {
    Messages.Marshal(Messages.Schema([MSG_WINDOW_ADJUST], [Messages.TU32, Messages.TU32]),
                     [Messages.VU32(id), Messages.VU32(n)])
  }

  /** The octets of an adjustment: the type, the recipient, the credit. */
  predicate IsAdjustment(p: seq<byte>, id: nat, credit: nat)
  {
    |p| == 9 && p[0] == 93 && GetU32(p[1..]) == id && GetU32(p[5..]) == credit
  }

  lemma EncodedIsAdjustment(id: nat, n: nat)
    ensures IsAdjustment(EncodeAdjust(id, n), id % U32_MODULUS, n % U32_MODULUS)
  {
    hide GetU32, PutU32;
    var vs := [Messages.VU32(id), Messages.VU32(n)];
    assert vs[1..] == [Messages.VU32(n)] && vs[1..][1..] == [];
    assert Messages.EncodeFields(vs[1..]) == PutU32(n) + Messages.EncodeFields(vs[1..][1..]);
    assert Messages.EncodeFields(vs) == PutU32(id) + Messages.EncodeFields(vs[1..]);
    var p := EncodeAdjust(id, n);
    assert p == [MSG_WINDOW_ADJUST] + (PutU32(id) + (PutU32(n) + []));
    assert p[1..] == PutU32(id) + (PutU32(n) + []);
    GetPutU32(id, PutU32(n) + []);
    assert p[5..] == PutU32(n) + [];
    GetPutU32(n, []);
  }

  // ---- The send window ----

  datatype Status = Ok | Closed | Expired

  class Window {
    var win: nat
    var closed: bool

    ghost predicate Valid()
      reads this
    {
      win < U32_MODULUS
    }

    constructor ()
      ensures Valid() && win == 0 && !closed
    {
      win, closed := 0, false;
    }

    /** Refused, and without effect, exactly when the sum does not fit in 32 bits. */
    method Add(n: nat) returns (ok: bool)
      requires Valid() && n < U32_MODULUS
      modifies this`win
      ensures Valid()
      ensures ok <==> old(win) + n < U32_MODULUS
      ensures win == if ok then old(win) + n else old(win)
    {
      AddIffFits(win, n);
      if n == 0 {
        return true;
      }
      if (win + n) % U32_MODULUS < n {
        return false;
      }
      win := (win + n) % U32_MODULUS;
      return true;
    }

    method Close()
      modifies this`closed
      ensures closed
    {
      closed := true;
    }

    /** The wait has ended: with window, with a close, or with neither. `bye` is a timeout or a halt seen on
        entry, before the window is looked at. */
    method Reserve(want: nat, bye: bool) returns (num: nat, status: Status)
      modifies this`win
      ensures win + num == old(win) && num <= want
      ensures status == Expired <==> bye || (old(win) == 0 && !closed)
      ensures status == Closed <==> !bye && closed
      ensures num == if status == Expired then 0 else Min(want, old(win))
    {
      if bye || (win == 0 && !closed) {
        return 0, Expired;
      }
      num := want;
      if win < num {
        num := win;
      }
      win := win - num;
      status := if closed then Closed else Ok;
    }
  }

  /** The machine's addition refuses exactly what does not fit, so a window never wraps. */
  lemma AddIffFits(win: nat, n: nat)
    requires win < U32_MODULUS && n < U32_MODULUS
    ensures WindowAdd(win, n) == if win + n < U32_MODULUS then (true, win + n) else (false, win)
  {
    if win + n < U32_MODULUS {
      assert (win + n) % U32_MODULUS == win + n;
    } else {
      assert (win + n) % U32_MODULUS == win + n - U32_MODULUS;
    }
  }

  // ---- When a Write can finish ----

  /** Every iteration makes progress unless the remaining length is a multiple of 2^32. */
  lemma ChunkProgress(maxRemote: nat, remaining: nat)
    requires maxRemote > 0 && remaining > 0
    ensures Chunk(maxRemote, remaining) == 0 <==> remaining % U32_MODULUS == 0
    ensures Chunk(maxRemote, remaining) <= remaining
  {
    assert remaining % U32_MODULUS <= remaining;
  }

  /** The lengths left after each iteration of some Write. */
  predicate Shrinks(maxRemote: nat, lengths: seq<nat>)
  {
    forall i :: 0 < i < |lengths| ==>
      lengths[i] <= lengths[i - 1] && lengths[i - 1] - lengths[i] <= Chunk(maxRemote, lengths[i - 1])
  }

  /** A Write of 2^32 bytes or more never gets below 2^32: no run of its loop ends. Below 2^32 each
      iteration that obtains window shortens what is left. */
  lemma {:induction false} LongWriteNeverEnds(maxRemote: nat, lengths: seq<nat>)
    requires lengths != [] && Shrinks(maxRemote, lengths) && lengths[0] >= U32_MODULUS
    ensures lengths[|lengths| - 1] >= U32_MODULUS
  {
    if |lengths| > 1 {
      var n := |lengths| - 1;
      LongWriteNeverEnds(maxRemote, lengths[..n]);
      var before := lengths[n - 1];
      assert before - lengths[n] <= before % U32_MODULUS;
      assert before == before / U32_MODULUS * U32_MODULUS + before % U32_MODULUS;
      assert before / U32_MODULUS >= 1;
    }
  }

  // ---- The channel ----

  /** Taking up to `n` bytes of one stream gives its longest prefix that fits and leaves the other alone. */
  predicate Drains(before: Streams, after: Streams, code: nat, n: nat, out: seq<byte>)
    requires code <= 1
  {
    && out + after.Get(code) == before.Get(code)
    && after.Get(1 - code) == before.Get(1 - code)
    && |out| == Min(n, |before.Get(code)|)
  }

  /** What one iteration of a Write meets. */
  datatype Turn = Turn(credit: nat, bye: bool)

  /** What was written since `before` is one data packet for each chunk, in order, each to the recipient `id`, and the
      chunks put together are `data`. */
  ghost predicate Carried(before: seq<seq<byte>>, wire: seq<seq<byte>>, id: nat, code: nat,
                          data: seq<byte>, chunks: seq<seq<byte>>)
  {
    && Concat(chunks) == data
    && |wire| == |before| + |chunks| && before <= wire
    && forall i :: 0 <= i < |chunks| ==> IsDataPacket(wire[|before| + i], id, code, |chunks[i]|, chunks[i])
  }

  /** No chunk is larger than the peer allows, and none is empty if none should be. */
  predicate Sized(chunks: seq<seq<byte>>, maxRemote: nat, nonEmpty: bool)
  {
    forall i :: 0 <= i < |chunks| ==> |chunks[i]| <= maxRemote && (nonEmpty ==> 0 < |chunks[i]|)
  }

  class Channel {
    const remoteId: word
    const remoteWin: Window
    const pending: Buffer
    const extPending: Buffer
    var maxRemote: nat
    var maxIncoming: nat
    var myWindow: nat
    var sentEof: bool
    var sentClose: bool
    var wire: seq<seq<byte>>    // what mux.conn was given
    ghost var discarded: nat

    ghost predicate Valid()
      reads this, pending, extPending, pending.repr, extPending.repr
    {
      && pending.Valid() && extPending.Valid() && pending != extPending
      && pending.repr !! extPending.repr
    }

    /** The receiving half of the endpoint model. */
    ghost function Rx(): Receiver
      reads this, pending, extPending
    {
      Receiver(myWindow, maxIncoming, Streams(pending.Contents(), extPending.Contents()), false, [],
               NO_STREAMS, discarded, 0)
    }

    constructor (id: word)
      ensures Valid() && remoteId == id
      ensures myWindow == CHANNEL_WINDOW_SIZE && remoteWin.win == 0 && !remoteWin.closed
      ensures pending.Contents() == [] && extPending.Contents() == []
    {
      remoteId := id;
      remoteWin := new Window();
      pending := new Buffer();
      extPending := new Buffer();
      maxRemote, maxIncoming, myWindow := 0, 0, CHANNEL_WINDOW_SIZE;
      sentEof, sentClose, wire, discarded := false, false, [], 0;
    }

    /** Nothing follows a close. */
    method WritePacket(packet: seq<byte>) returns (ok: bool)
      requires packet != []
      modifies `sentClose, `wire
      ensures ok == !old(sentClose)
      ensures wire == if ok then old(wire) + [packet] else old(wire)
      ensures sentClose == (old(sentClose) || packet[0] == 97)
    {
      if sentClose {
        return false;
      }
      sentClose := packet[0] == MSG_CLOSE;
      wire := wire + [packet];
      return true;
    }

    /** Appends to the stream of the code; other codes are dropped. */
    method Deliver(code: nat, bytes: seq<byte>)
      requires Valid()
      modifies `discarded, pending, extPending, pending.repr, extPending.repr
      ensures Valid()
      ensures Rx().pending == old(Rx()).pending.Append(code, bytes)
      ensures discarded == old(discarded) + if code > 1 then |bytes| else 0
      ensures pending.closed == old(pending.closed) && extPending.closed == old(extPending.closed)
    {
      if code == 1 {
        extPending.Write(bytes);
      } else if code > 0 {
        discarded := discarded + |bytes|;
      } else {
        pending.Write(bytes);
      }
    }

    method HandleData(packet: seq<byte>) returns (v: Verdict)
      requires Valid() && packet != []
      modifies `myWindow, `discarded, pending, extPending, pending.repr, extPending.repr
      ensures Valid()
      ensures v == Judge(packet, maxIncoming, old(myWindow))
      ensures v.Take? ==> myWindow == old(myWindow) - v.charge
      ensures v.Take? ==> Rx().pending == old(Rx()).pending.Append(v.code, v.bytes)
      ensures v.Take? && |v.bytes| < U32_MODULUS ==> Rx() == TakeData(old(Rx()), v.code, v.bytes)
      ensures !v.Take? ==> Rx() == old(Rx())
      ensures pending.closed == old(pending.closed) && extPending.closed == old(extPending.closed)
    {
      v := Judge(packet, maxIncoming, myWindow);
      if v.Take? {
        myWindow := myWindow - v.charge;
        Deliver(v.code, v.bytes);
      }
    }

    method AdjustWindow(n: nat) returns (ok: bool)
      modifies `myWindow, `sentClose, `wire
      ensures myWindow == (old(myWindow) + n) % U32_MODULUS
      ensures ok == !old(sentClose) && sentClose == old(sentClose)
      ensures wire == if ok then old(wire) + [EncodeAdjust(remoteId, n)] else old(wire)
      ensures IsAdjustment(EncodeAdjust(remoteId, n), remoteId, n % U32_MODULUS)
    {
      myWindow := (myWindow + n) % U32_MODULUS;
      EncodedIsAdjustment(remoteId, n);
      ok := WritePacket(EncodeAdjust(remoteId, n));
    }

    method TakeBuffered(n: nat, code: nat, timedOut: bool) returns (out: seq<byte>, status: ReadStatus)
      requires Valid() && code <= 1
      modifies pending, extPending, pending.repr, extPending.repr
      ensures Valid()
      ensures Drains(old(Rx()).pending, Rx().pending, code, n, out)
      ensures status != NoStream
      ensures status == EndOfFile ==> out == [] && old(Rx()).pending.Get(code) == []
    {
      if code == 1 {
        out, status := extPending.Read(n, timedOut);
      } else {
        out, status := pending.Read(n, timedOut);
      }
    }

    /** Whatever is taken from the buffer is credited, once, with one adjustment of that size. */
    method ReadStream(n: nat, code: nat, timedOut: bool) returns (out: seq<byte>, status: ReadStatus)
      requires Valid() && code <= 1
      modifies `myWindow, `sentClose, `wire, pending, extPending, pending.repr, extPending.repr
      ensures Valid()
      ensures Drains(old(Rx()).pending, Rx().pending, code, n, out)
      ensures myWindow == if out == [] then old(myWindow) else (old(myWindow) + |out|) % U32_MODULUS
      ensures wire == if out == [] || sentClose then old(wire) else old(wire) + [EncodeAdjust(remoteId, |out|)]
      ensures out != [] ==> IsAdjustment(EncodeAdjust(remoteId, |out|), remoteId, |out| % U32_MODULUS)
      ensures sentClose == old(sentClose) && status != NoStream
      ensures status == EndOfFile ==> out == [] && old(Rx()).pending.Get(code) == []
    {
      hide Drains, EncodeAdjust;
      out, status := TakeBuffered(n, code, timedOut);
      ghost var taken := Rx().pending;
      if |out| > 0 {
        var credited := AdjustWindow(|out|);
      }
      assert Rx().pending == taken;
    }

    /** There is no stream for codes above 1: an error, and nothing else. */
    method ReadExtended(n: nat, code: nat, timedOut: bool) returns (out: seq<byte>, status: ReadStatus)
      requires Valid()
      modifies `myWindow, `sentClose, `wire, pending, extPending, pending.repr, extPending.repr
      ensures Valid() && sentClose == old(sentClose)
      ensures status == NoStream <==> code > 1
      ensures code > 1 ==> out == [] && Rx().pending == old(Rx()).pending
      ensures code <= 1 ==> Drains(old(Rx()).pending, Rx().pending, code, n, out)
      ensures myWindow == if out == [] then old(myWindow) else (old(myWindow) + |out|) % U32_MODULUS
      ensures wire == if out == [] || sentClose then old(wire) else old(wire) + [EncodeAdjust(remoteId, |out|)]
      ensures out != [] ==> IsAdjustment(EncodeAdjust(remoteId, |out|), remoteId, |out| % U32_MODULUS)
      ensures status == EndOfFile ==> out == [] && old(Rx()).pending.Get(code) == []
    {
      hide Drains, EncodeAdjust, Channel.Valid;
      if code > 1 {
        return [], NoStream;
      }
      out, status := ReadStream(n, code, timedOut);
    }

    /** One iteration of WriteExtended: reserve, then send what was reserved. */
    method WriteChunk(todo: seq<byte>, code: word, bye: bool) returns (space: nat, status: Status)
      requires todo != [] && maxRemote > 0
      modifies `sentClose, `wire, remoteWin`win
      ensures space <= |todo| % U32_MODULUS && space <= maxRemote && remoteWin.win + space == old(remoteWin.win)
      ensures space <= |todo|
      ensures status == Ok ==> wire == old(wire) + [EncodeData(remoteId, code, todo[..space])]
      ensures status == Ok ==> (space == 0 <==> |todo| % U32_MODULUS == 0)
      ensures status != Ok ==> wire == old(wire)
      ensures status == Expired ==> space == 0
      ensures sentClose == old(sentClose)
    {
      ChunkProgress(maxRemote, |todo|);
      space, status := remoteWin.Reserve(Chunk(maxRemote, |todo|), bye);
      assert |todo| % U32_MODULUS <= |todo|;
      if status == Ok {
        var sent := WritePacket(EncodeData(remoteId, code, todo[..space]));
        if !sent {
          status := Closed;
        }
      }
    }

    /** `turns[i]` is what happens while iteration `i` waits: credit that arrives, and whether it sees a timeout
        or a halt on entry; where the credit leaves the window empty the wait ends in a timeout. With no turns
        left the call is still running. The packets sent carry a prefix of `data` in order, none larger than the
        peer allows, and the count is the length of that prefix. Below 2^32 bytes no packet is empty, so as many
        turns as bytes are enough; from 2^32 bytes on the call never succeeds. */
    method WriteExtended(data: seq<byte>, code: word, turns: seq<Turn>)
      returns (n: nat, running: bool, status: Status, ghost chunks: seq<seq<byte>>, ghost granted: nat, ghost lost: nat)
      requires maxRemote > 0 && remoteWin.Valid()
      requires forall i :: 0 <= i < |turns| ==> turns[i].credit < U32_MODULUS
      modifies `sentClose, `wire, remoteWin`win
      ensures remoteWin.Valid() && n <= |data|
      ensures Carried(old(wire), wire, remoteId, code, data[..n], chunks) && Sized(chunks, maxRemote, |data| < U32_MODULUS)
      ensures status == Ok && !running ==> n == |data|
      ensures |data| < U32_MODULUS && |turns| >= |data| ==> !running
      ensures |data| >= U32_MODULUS ==> running || status != Ok
      ensures old(sentEof) ==> n == 0 && status == Closed
      ensures remoteWin.win + n + lost == old(remoteWin.win) + granted
      ensures status != Closed ==> lost == 0
      ensures granted <= Credits(turns) && sentClose == old(sentClose)
    {
      n, running, status, chunks, granted, lost := 0, false, Ok, [], 0, 0;
      NothingCarried(wire, remoteId, code);
      hide Carried;
      if sentEof {
        status := Closed;
        return;
      }
      var i := 0;
      while n < |data| && i < |turns|
        invariant 0 <= n <= |data| && i <= |turns| && status == Ok && lost == 0 && remoteWin.Valid()
        invariant |data| >= U32_MODULUS ==> |data| - n >= U32_MODULUS
        invariant |data| < U32_MODULUS ==> i <= n
        invariant Carried(old(wire), wire, remoteId, code, data[..n], chunks) && Sized(chunks, maxRemote, |data| < U32_MODULUS)
        invariant remoteWin.win + n == old(remoteWin.win) + granted
        invariant granted <= Credits(turns[..i]) && sentClose == old(sentClose)
        decreases |turns| - i
      {
        var ok := remoteWin.Add(turns[i].credit);
        granted := granted + if ok then turns[i].credit else 0;
        CreditsStep(turns, i);
        var todo := data[n..];
        assert |todo| == |data| - n;
        ghost var before := wire;
        var space, result := WriteChunk(todo, code, turns[i].bye);
        i := i + 1;
        if result != Ok {
          status, lost := result, space;
          break;
        }
        StillLong(|todo|, space);
        CarryMore(old(wire), before, remoteId, code, data[..n], chunks, todo[..space]);
        CutMore(data, n, space);
        chunks := chunks + [todo[..space]];
        n := n + space;
      }
      running := status == Ok && n < |data|;
      CreditsPrefix(turns, i);
    }
  }

  /** Taking no more than the low 32 bits says leaves 2^32 bytes or more where there were that many. */
  lemma StillLong(length: nat, space: nat)
    requires space <= length % U32_MODULUS
    ensures length >= U32_MODULUS ==> length - space >= U32_MODULUS
    ensures 0 < length < U32_MODULUS ==> length % U32_MODULUS != 0
  {
  }

  lemma CutMore(data: seq<byte>, n: nat, space: nat)
    requires n + space <= |data|
    ensures data[..n] + data[n..][..space] == data[..n + space]
  {
  }

  lemma NothingCarried(wire: seq<seq<byte>>, id: nat, code: nat)
    ensures Carried(wire, wire, id, code, [], [])
  {
  }

  lemma CarryMore(before: seq<seq<byte>>, wire: seq<seq<byte>>, id: word, code: word,
                  data: seq<byte>, chunks: seq<seq<byte>>, chunk: seq<byte>)
    requires Carried(before, wire, id, code, data, chunks) && |chunk| < U32_MODULUS
    ensures Carried(before, wire + [EncodeData(id, code, chunk)], id, code, data + chunk, chunks + [chunk])
  {
    hide IsDataPacket, EncodePacket;
    ConcatAppend(chunks, chunk);
    EncodedIsData(id, code, |chunk|, chunk);
  }

  function Credits(turns: seq<Turn>): nat
  {
    if turns == [] then 0 else Credits(turns[..|turns| - 1]) + turns[|turns| - 1].credit
  }

  lemma CreditsStep(turns: seq<Turn>, i: nat)
    requires i < |turns|
    ensures Credits(turns[..i + 1]) == Credits(turns[..i]) + turns[i].credit
  {
    assert turns[..i + 1][..i] == turns[..i];
  }

  lemma {:induction false} CreditsPrefix(turns: seq<Turn>, i: nat)
    requires i <= |turns|
    ensures Credits(turns[..i]) <= Credits(turns)
  {
    if i == |turns| {
      assert turns[..i] == turns;
    } else {
      var init := turns[..|turns| - 1];
      assert init[..i] == turns[..i];
      CreditsPrefix(init, i);
    }
  }
}
