/** Two ends of a channel joined by two first-in first-out wires: what holds in every
    state of every run (section 5.2 of RFC 4254). */
module FlowControl {
  import opened Bytes
  import opened Endpoint
  import opened Options

  datatype Action =
    | AStartWrite(t: nat, code: nat, data: seq<byte>)
    | AReserve(t: nat)
    | AFill(t: nat)
    | ASend(t: nat, spoils: bool)
    | AAbandon(t: nat)
    | AEndWrite(t: nat)
    | ARead(t: nat, code: nat, n: nat)
    | AGrant(t: nat)
    | ACredit(t: nat)
    | AAccept
    | ACloseWrite
    | AClose
    | AReceive

  datatype State = State(a: End, b: End, ab: seq<Msg>, ba: seq<Msg>)

  /** `byA` says which end moves. */
  datatype Step = Step(byA: bool, action: Action)

  function Swap(s: State): State
  {
    State(s.b, s.a, s.ba, s.ab)
  }

  predicate Enabled(e: End, inbox: seq<Msg>, act: Action)
  {
    match act
    case AStartWrite(t, _, _) => CanStartWrite(e, t)
    case AReserve(t) => CanReserve(e, t)
    case AFill(t) => CanFill(e, t)
    case ASend(t, _) => CanSend(e, t)
    case AAbandon(t) => CanAbandon(e, t)
    case AEndWrite(t) => CanEndWrite(e, t)
    case ARead(t, code, n) => CanRead(e, t, code, n)
    case AGrant(t) => CanGrant(e, t)
    case ACredit(t) => CanCredit(e, t)
    case AAccept => CanAccept(e)
    case ACloseWrite => e.life.decided
    case AClose => e.life.decided
    case AReceive => inbox != []
  }

  function Act(e: End, inbox: seq<Msg>, act: Action): Out
    requires Enabled(e, inbox, act)
  {
    match act
    case AStartWrite(t, code, data) => Out(StartWrite(e, t, code, data), [])
    case AReserve(t) => Out(Reserve(e, t), [])
    case AFill(t) => Out(Fill(e, t), [])
    case ASend(t, spoils) => Send(e, t, spoils)
    case AAbandon(t) => Out(Abandon(e, t), [])
    case AEndWrite(t) => Out(EndWrite(e, t), [])
    case ARead(t, code, n) => Out(Read(e, t, code, n), [])
    case AGrant(t) => Out(Grant(e, t), [])
    case ACredit(t) => Credit(e, t)
    case AAccept => Accept(e)
    case ACloseWrite => CloseWrite(e)
    case AClose => CloseEnd(e)
    case AReceive => Receive(e, inbox[0])
  }

  /** The step can happen. */
  predicate Possible(s: State, step: Step)
  {
    if step.byA then Enabled(s.a, s.ba, step.action) else Enabled(s.b, s.ab, step.action)
  }

  /** No Write is begun on a code on which another has not returned. */
  predicate Orderly(e: End, act: Action)
  {
    act.AStartWrite? ==>
      forall i :: 0 <= i < |e.tx.writers| && !e.tx.writers[i].NoWrite? ==> e.tx.writers[i].code != act.code
  }

  /** The step can happen and no two Writes of one code overlap by it. Runs are made of such steps. */
  predicate CanStep(s: State, step: Step)
  {
    Possible(s, step) && Orderly(if step.byA then s.a else s.b, step.action)
  }

  function MoveA(s: State, act: Action): State
    requires Enabled(s.a, s.ba, act)
  {
    var out := Act(s.a, s.ba, act);
    State(out.end, s.b, s.ab + out.msgs, if act.AReceive? then s.ba[1..] else s.ba)
  }

  function Next(s: State, step: Step): State
    requires Possible(s, step)
  {
    if step.byA then MoveA(s, step.action) else Swap(MoveA(Swap(s), step.action))
  }

  ghost predicate IsRun(s: State, steps: seq<Step>)
    decreases |steps|
  {
    steps == [] || (CanStep(s, steps[0]) && IsRun(Next(s, steps[0]), steps[1..]))
  }

  ghost function After(s: State, steps: seq<Step>): State
    requires IsRun(s, steps)
    decreases |steps|
  {
    if steps == [] then s else After(Next(s, steps[0]), steps[1..])
  }

  // ---- The opening state: one end has sent its channel open ----

  function Blank(outbound: bool, writers: nat, readers: nat): End
  {
    End(Life(false, outbound, false, false, false, false, false),
        Sender(0, false, 0, seq(writers, _ => NoWrite), Pool([], map[]), NO_STREAMS, 0),
        Receiver(0, 0, NO_STREAMS, false, seq(readers, _ => NoRead), NO_STREAMS, 0, 0),
        NoFault)
  }

  /** Any number of goroutines may use either end. */
  function Opening(aWriters: nat, aReaders: nat, bWriters: nat, bReaders: nat): State
  {
    var a := NewChannel(Blank(true, aWriters, aReaders));
    State(a.(rx := a.rx.(maxIncoming := CHANNEL_MAX_PACKET)),
          Blank(false, bWriters, bReaders),
          [Open(CHANNEL_WINDOW_SIZE, CHANNEL_MAX_PACKET)], [])
  }

  // ---- Sums ----

  function Held(ws: seq<Writer>): nat
  {
    if ws == [] then 0 else (if ws[0].Holding? then ws[0].space else 0) + Held(ws[1..])
  }

  function ConsumedSum(rs: seq<Reader>): nat
  {
    if rs == [] then 0 else (if rs[0].Consumed? then rs[0].n else 0) + ConsumedSum(rs[1..])
  }

  function GrantedSum(rs: seq<Reader>): nat
  {
    if rs == [] then 0 else (if rs[0].Granted? then rs[0].n else 0) + GrantedSum(rs[1..])
  }

  function DataOf(m: Msg): nat
  {
    if m.Data? then |m.bytes| else 0
  }

  function CreditOf(m: Msg): nat
  {
    match m
    case Open(w, _) => w
    case Confirm(w, _) => w
    case Adjust(n) => n
    case _ => 0
  }

  function DataInFlight(wire: seq<Msg>): nat
  {
    if wire == [] then 0 else DataOf(wire[0]) + DataInFlight(wire[1..])
  }

  function CreditInFlight(wire: seq<Msg>): nat
  {
    if wire == [] then 0 else CreditOf(wire[0]) + CreditInFlight(wire[1..])
  }

  function StreamOf(m: Msg, code: nat): seq<byte>
  {
    if m.Data? && m.code == code then m.bytes else []
  }

  function StreamInFlight(wire: seq<Msg>, code: nat): seq<byte>
  {
    if wire == [] then [] else StreamOf(wire[0], code) + StreamInFlight(wire[1..], code)
  }

  lemma {:induction false} WireConcat(wire: seq<Msg>, more: seq<Msg>)
    ensures DataInFlight(wire + more) == DataInFlight(wire) + DataInFlight(more)
    ensures CreditInFlight(wire + more) == CreditInFlight(wire) + CreditInFlight(more)
    ensures forall code :: StreamInFlight(wire + more, code) == StreamInFlight(wire, code) + StreamInFlight(more, code)
  {
    if wire == [] {
      assert wire + more == more;
    } else {
      assert (wire + more)[1..] == wire[1..] + more;
      WireConcat(wire[1..], more);
    }
  }

  lemma {:induction false} HeldUpdate(ws: seq<Writer>, t: nat, w: Writer)
    requires t < |ws|
    ensures Held(ws[t := w]) == Held(ws) - Held([ws[t]]) + Held([w])
  {
    assert Held([ws[t]][1..]) == 0 && Held([w][1..]) == 0;
    if t == 0 {
      assert ws[t := w][1..] == ws[1..];
    } else {
      assert ws[t := w][1..] == ws[1..][t - 1 := w];
      HeldUpdate(ws[1..], t - 1, w);
    }
  }

  lemma {:induction false} ReadersUpdate(rs: seq<Reader>, t: nat, r: Reader)
    requires t < |rs|
    ensures ConsumedSum(rs[t := r]) == ConsumedSum(rs) - ConsumedSum([rs[t]]) + ConsumedSum([r])
    ensures GrantedSum(rs[t := r]) == GrantedSum(rs) - GrantedSum([rs[t]]) + GrantedSum([r])
  {
    assert ConsumedSum([rs[t]][1..]) == 0 && ConsumedSum([r][1..]) == 0;
    assert GrantedSum([rs[t]][1..]) == 0 && GrantedSum([r][1..]) == 0;
    if t == 0 {
      assert rs[t := r][1..] == rs[1..];
    } else {
      assert rs[t := r][1..] == rs[1..][t - 1 := r];
      ReadersUpdate(rs[1..], t - 1, r);
    }
  }

  // ---- The invariants, for data flowing from `x` to `y` ----

  /** The end has told its peer about its window. */
  predicate Announced(y: Life)
  {
    y.present && (y.outbound || y.decided)
  }

  /** The peer's window as far as the sending end holds it. */
  function SendSide(x: Sender): nat
  {
    x.win + Held(x.writers) + x.forfeited
  }

  /** One's own window as far as the receiving end has it in use or has not credited it. */
  function ReceiveSide(y: Receiver): nat
  {
    y.pending.Total() + ConsumedSum(y.readers) + GrantedSum(y.readers) + y.discarded + y.refused
  }

  /** Every byte of window that `y` announced is in exactly one place: available to `x`,
      reserved, travelling as data, buffered, read and not yet credited, travelling as
      credit, or lost to a discarded code or to a close. */
  predicate Conserved(x: End, y: End, xy: seq<Msg>, yx: seq<Msg>)
  {
    SendSide(x.tx) + DataInFlight(xy) + ReceiveSide(y.rx) + CreditInFlight(yx)
    == if Announced(y.life) then CHANNEL_WINDOW_SIZE else 0
  }

  function OwnWindow(y: Receiver): nat
  {
    y.myWindow + y.pending.Total() + ConsumedSum(y.readers) + y.discarded
  }

  /** The receiver's own count. */
  predicate Accounted(y: End)
  {
    OwnWindow(y.rx) == if y.life.present then CHANNEL_WINDOW_SIZE else 0
  }

  /** What was read, then what waits, then what travels, is what was sent. */
  predicate InOrder(x: Sender, y: Receiver, xy: seq<Msg>)
  {
    forall code :: 0 <= code <= 1 ==>
      y.got.Get(code) + y.pending.Get(code) + StreamInFlight(xy, code) == x.sent.Get(code)
  }

  predicate WriterOk(maxRemote: nat, w: Writer)
  {
    w.Holding? ==> w.space <= |w.todo| && w.space <= maxRemote
  }

  predicate SenderLimits(tx: Sender)
  {
    && (tx.maxRemote == 0 || tx.maxRemote == CHANNEL_MAX_PACKET)
    && (forall i :: 0 <= i < |tx.writers| ==> WriterOk(tx.maxRemote, tx.writers[i]))
  }

  /** A data packet says how long it is. */
  predicate Sound(m: Msg)
  {
    !m.Garbled? && (m.Data? ==> m.length == |m.bytes|)
  }

  predicate WireLimits(xy: seq<Msg>)
  {
    forall i :: 0 <= i < |xy| ==> DataOf(xy[i]) <= CHANNEL_MAX_PACKET && Sound(xy[i])
  }

  /** A writer's array, if it has one, was made for its code; once filled it holds the writer's bytes. */
  predicate PacketOk(arrays: seq<Packet>, w: Writer)
  {
    && (!w.NoWrite? && w.buf.Some? ==> w.buf.value < |arrays| && arrays[w.buf.value].code == w.code)
    && (w.Holding? && w.filled ==>
          && w.buf.Some? && w.space <= |w.todo|
          && var p := arrays[w.buf.value];
             !p.spoiled && p.length == w.space <= |p.data| && p.data[..w.space] == w.todo[..w.space])
  }

  predicate KeptOk(pool: Pool)
  {
    forall c :: c in pool.kept ==> pool.kept[c] < |pool.arrays| && pool.arrays[pool.kept[c]].code == c
  }

  /** Writes in progress are on different codes, so their arrays are different. */
  predicate PoolOk(tx: Sender)
  {
    && (forall i :: 0 <= i < |tx.writers| ==> PacketOk(tx.pool.arrays, tx.writers[i]))
    && KeptOk(tx.pool)
    && (forall i, j :: 0 <= i < j < |tx.writers| && !tx.writers[i].NoWrite? && !tx.writers[j].NoWrite? ==>
          tx.writers[i].code != tx.writers[j].code)
  }

  predicate Limits(x: End, xy: seq<Msg>)
  {
    && SenderLimits(x.tx)
    && x.rx.maxIncoming == (if Announced(x.life) then CHANNEL_MAX_PACKET else 0)
    && WireLimits(xy)
  }

  const OPENING := Open(CHANNEL_WINDOW_SIZE, CHANNEL_MAX_PACKET)
  const CONFIRMATION := Confirm(CHANNEL_WINDOW_SIZE, CHANNEL_MAX_PACKET)

  /** Openings and confirmations: one of each, first on its wire. */
  predicate OpenedOnce(x: Life, y: Life, xy: seq<Msg>)
  {
    && (x.decided || x.outbound ==> x.present)
    && (!x.decided ==> !x.sentEof && !x.sentClose)
    && (!x.decided ==> xy == if x.outbound && !y.present then [OPENING] else [])
    && (x.outbound && x.decided ==> y.decided)
    && (forall i :: 0 <= i < |xy| ==> (xy[i].Open? ==> x.outbound && !y.present))
    && (forall i :: 0 <= i < |xy| ==> (xy[i].Confirm? ==> !x.outbound && !y.decided && i == 0 && xy[i] == CONFIRMATION))
    && (!x.outbound && x.decided && !y.decided ==> xy != [] && xy[0].Confirm?)
  }

  /** A close is the last message, and the receiver is removed by it. */
  predicate ClosedOnce(x: Life, y: Life, xy: seq<Msg>)
  {
    && (forall i :: 0 <= i < |xy| ==> (xy[i].Close? ==> x.sentClose && i == |xy| - 1))
    && (x.sentClose ==> if y.removed then xy == [] else xy != [] && xy[|xy| - 1].Close?)
    && (y.removed ==> x.sentClose)
    && (x.removed ==> x.sentClose)
  }

  predicate NoData(xy: seq<Msg>)
  {
    forall i :: 0 <= i < |xy| ==> !xy[i].Data?
  }

  /** An end of file is the last word on data, unless CloseWrite overlapped a Write. */
  predicate EofLast(x: End, y: End, xy: seq<Msg>)
  {
    && (x.life.sentEof && !x.life.overlapped ==> Idle(x.tx.writers))
    && (forall i :: 0 <= i < |xy| ==> (xy[i].Eof? ==> x.life.sentEof && (x.life.overlapped || NoData(xy[i..]))))
    && (y.rx.eof ==> x.life.sentEof || y.life.removed)
    && (y.rx.eof ==> x.life.overlapped || NoData(xy))
  }

  /** Nobody uses an undecided channel. */
  predicate Quiet(x: End)
  {
    !x.life.decided ==> Idle(x.tx.writers) && forall i :: 0 <= i < |x.rx.readers| ==> x.rx.readers[i].NoRead?
  }

  ghost predicate Directed(x: End, y: End, xy: seq<Msg>, yx: seq<Msg>)
  {
    && Conserved(x, y, xy, yx)
    && Accounted(y)
    && InOrder(x.tx, y.rx, xy)
    && Limits(x, xy)
    && OpenedOnce(x.life, y.life, xy)
    && ClosedOnce(x.life, y.life, xy)
    && EofLast(x, y, xy)
    && Quiet(x)
    && PoolOk(x.tx)
    && x.fault == NoFault
  }

  ghost predicate Inv(s: State)
  {
    && Directed(s.a, s.b, s.ab, s.ba)
    && Directed(s.b, s.a, s.ba, s.ab)
    && s.a.life.outbound != s.b.life.outbound
  }

  lemma OneMessage(m: Msg)
    ensures DataInFlight([m]) == DataOf(m) && CreditInFlight([m]) == CreditOf(m)
    ensures DataInFlight([]) == 0 && CreditInFlight([]) == 0
  {
    assert [m][1..] == [];
  }

  lemma OneStream(m: Msg, code: nat)
    ensures StreamInFlight([m], code) == StreamOf(m, code)
  {
    assert [m][1..] == [];
    assert StreamOf(m, code) + [] == StreamOf(m, code);
  }

  ghost predicate IsOpening(s: State)
  {
    s == Opening(|s.a.tx.writers|, |s.a.rx.readers|, |s.b.tx.writers|, |s.b.rx.readers|)
  }

  lemma OpeningBalanced(s: State)
    requires IsOpening(s)
    ensures Conserved(s.a, s.b, s.ab, s.ba) && Conserved(s.b, s.a, s.ba, s.ab) && Accounted(s.a) && Accounted(s.b)
  {
    NothingHeld(s.a.tx.writers);
    NothingHeld(s.b.tx.writers);
    NothingRead(s.a.rx.readers);
    NothingRead(s.b.rx.readers);
    OneMessage(OPENING);
    NoMessages();
  }

  lemma OpeningInOrder(s: State)
    requires IsOpening(s)
    ensures InOrder(s.a.tx, s.b.rx, s.ab) && InOrder(s.b.tx, s.a.rx, s.ba)
  {
    OneStream(OPENING, 0);
    OneStream(OPENING, 1);
  }

  lemma OpeningHolds(aWriters: nat, aReaders: nat, bWriters: nat, bReaders: nat)
    ensures Inv(Opening(aWriters, aReaders, bWriters, bReaders))
  {
    hide Conserved, Accounted, InOrder;
    var s := Opening(aWriters, aReaders, bWriters, bReaders);
    OpeningBalanced(s);
    OpeningInOrder(s);
  }

  lemma {:induction false} NothingHeld(ws: seq<Writer>)
    requires Idle(ws)
    ensures Held(ws) == 0
  {
    if ws != [] {
      NothingHeld(ws[1..]);
    }
  }

  lemma {:induction false} NothingRead(rs: seq<Reader>)
    requires forall i :: 0 <= i < |rs| ==> rs[i].NoRead?
    ensures ConsumedSum(rs) == 0 && GrantedSum(rs) == 0
  {
    if rs != [] {
      NothingRead(rs[1..]);
    }
  }

  // ---- Receiving ----

  lemma FlightBound(wire: seq<Msg>)
    requires wire != []
    ensures DataInFlight(wire) == DataOf(wire[0]) + DataInFlight(wire[1..])
    ensures CreditInFlight(wire) == CreditOf(wire[0]) + CreditInFlight(wire[1..])
  {
  }

  lemma AddWithinWindow(win: nat, n: nat)
    requires win + n <= CHANNEL_WINDOW_SIZE
    ensures WindowAdd(win, n) == (true, win + n)
  {
  }

  /** The message at the head of the wire fits the window on either side. */
  lemma HeadFits(x: End, y: End, xy: seq<Msg>, yx: seq<Msg>)
    requires Conserved(x, y, xy, yx) && Accounted(y)
    ensures x.tx.win <= CHANNEL_WINDOW_SIZE && y.rx.myWindow <= CHANNEL_WINDOW_SIZE
    ensures yx != [] ==> x.tx.win + CreditOf(yx[0]) <= CHANNEL_WINDOW_SIZE
    ensures xy != [] ==> DataOf(xy[0]) <= y.rx.myWindow && (DataOf(xy[0]) > 0 ==> Announced(y.life))
  {
  }

  /** Whatever an honest peer has put on the wire is accepted. */
  lemma ReceiveWithoutFault(s: State)
    requires Inv(s) && s.ba != []
    ensures Receive(s.a, s.ba[0]).end.fault == NoFault
    ensures !s.ba[0].Open? ==> s.a.life.present && !s.a.life.removed
    ensures s.a.tx.win + CreditOf(s.ba[0]) <= CHANNEL_WINDOW_SIZE
    ensures WindowAdd(s.a.tx.win, CreditOf(s.ba[0])) == (true, s.a.tx.win + CreditOf(s.ba[0]))
    ensures DataOf(s.ba[0]) <= s.a.rx.myWindow && DataOf(s.ba[0]) <= s.a.rx.maxIncoming
    ensures Sound(s.ba[0])
  {
    hide Conserved, Accounted, InOrder, EofLast, PoolOk;
    HeadFits(s.a, s.b, s.ab, s.ba);
    HeadFits(s.b, s.a, s.ba, s.ab);
    AddWithinWindow(s.a.tx.win, CreditOf(s.ba[0]));
    assert DataOf(s.ba[0]) <= CHANNEL_MAX_PACKET;
  }

  // ---- Conservation ----

  /** The ledger of one action: both sides of the window move only as its messages say. */
  ghost predicate Ledger(e: End, out: Out, taken: seq<Msg>, announced: nat)
  {
    && SendSide(out.end.tx) + DataInFlight(out.msgs) == SendSide(e.tx) + CreditInFlight(taken)
    && ReceiveSide(out.end.rx) + CreditInFlight(out.msgs) == ReceiveSide(e.rx) + DataInFlight(taken) + announced
    && OwnWindow(out.end.rx)
       == OwnWindow(e.rx) + (if out.end.life.present && !e.life.present then CHANNEL_WINDOW_SIZE else 0)
  }

  lemma StartWriteLedger(e: End, t: nat, code: nat, data: seq<byte>)
    requires CanStartWrite(e, t)
    ensures Ledger(e, Out(StartWrite(e, t, code, data), []), [], 0)
  {
    HeldUpdate(e.tx.writers, t, NextWriter(code, data, e.tx.pool.Get(code)));
  }

  lemma ReserveLedger(e: End, t: nat)
    requires CanReserve(e, t)
    ensures Ledger(e, Out(Reserve(e, t), []), [], 0)
  {
    HeldUpdate(e.tx.writers, t, Reserve(e, t).tx.writers[t]);
  }

  lemma AbandonLedger(e: End, t: nat)
    requires CanAbandon(e, t)
    ensures Ledger(e, Out(Abandon(e, t), []), [], 0)
  {
    HeldUpdate(e.tx.writers, t, NoWrite);
  }

  lemma FillLedger(e: End, t: nat)
    requires CanFill(e, t)
    ensures Ledger(e, Out(Fill(e, t), []), [], 0)
  {
    HeldUpdate(e.tx.writers, t, Fill(e, t).tx.writers[t]);
  }

  lemma EndWriteLedger(e: End, t: nat)
    requires CanEndWrite(e, t)
    ensures Ledger(e, Out(EndWrite(e, t), []), [], 0)
  {
    HeldUpdate(e.tx.writers, t, NoWrite);
  }

  /** A filled packet says what its writer wants to send. */
  lemma SealedIsOwn(tx: Sender, t: nat)
    requires t < |tx.writers| && PacketOk(tx.pool.arrays, tx.writers[t]) && tx.writers[t].Holding? && tx.writers[t].filled
    ensures var w := tx.writers[t];
            Sealed(tx.pool.arrays[w.buf.value], w.space) == Data(w.code, w.space, w.todo[..w.space])
  {
  }

  lemma SendLedger(e: End, t: nat, spoils: bool)
    requires CanSend(e, t) && PacketOk(e.tx.pool.arrays, e.tx.writers[t])
    ensures Ledger(e, Send(e, t, spoils), [], 0)
  {
    var w := e.tx.writers[t];
    SealedIsOwn(e.tx, t);
    HeldUpdate(e.tx.writers, t, Send(e, t, spoils).end.tx.writers[t]);
    OneMessage(Data(w.code, w.space, w.todo[..w.space]));
  }

  lemma ReadLedger(e: End, t: nat, code: nat, n: nat)
    requires CanRead(e, t, code, n)
    ensures Ledger(e, Out(Read(e, t, code, n), []), [], 0)
  {
    ReadersUpdate(e.rx.readers, t, Read(e, t, code, n).rx.readers[t]);
  }

  lemma {:induction false} ReaderBound(rs: seq<Reader>, t: nat)
    requires t < |rs| && rs[t].Consumed?
    ensures rs[t].n <= ConsumedSum(rs)
  {
    if t > 0 {
      ReaderBound(rs[1..], t - 1);
    }
  }

  lemma GrantLedger(e: End, t: nat)
    requires CanGrant(e, t) && OwnWindow(e.rx) < U32_MODULUS
    ensures Ledger(e, Out(Grant(e, t), []), [], 0)
  {
    ReadersUpdate(e.rx.readers, t, Granted(e.rx.readers[t].n));
    ReaderBound(e.rx.readers, t);
  }

  lemma CreditLedger(e: End, t: nat)
    requires CanCredit(e, t)
    ensures Ledger(e, Credit(e, t), [], 0)
  {
    ReadersUpdate(e.rx.readers, t, NoRead);
    OneMessage(Adjust(e.rx.readers[t].n));
  }

  lemma ControlLedger(e: End)
    ensures Ledger(e, CloseWrite(e), [], 0)
    ensures Ledger(e, CloseEnd(e), [], 0)
  {
    OneMessage(Eof);
    OneMessage(Close);
  }

  lemma AcceptLedger(e: End)
    requires CanAccept(e) && !e.life.sentClose && e.rx.myWindow == CHANNEL_WINDOW_SIZE
    ensures Ledger(e, Accept(e), [], CHANNEL_WINDOW_SIZE)
  {
    OneMessage(Confirm(e.rx.myWindow, CHANNEL_MAX_PACKET));
  }

  lemma ReceiveLedger(e: End, m: Msg)
    requires e.fault == NoFault && Receive(e, m).end.fault == NoFault && Sound(m)
    requires WindowAdd(e.tx.win, CreditOf(m)) == (true, e.tx.win + CreditOf(m))
    requires e.life.present || e.rx.myWindow == 0
    ensures Ledger(e, Receive(e, m), [m], 0)
  {
    OneMessage(m);
    OneMessage(Close);
  }

  function Taken(inbox: seq<Msg>, act: Action): seq<Msg>
    requires act.AReceive? ==> inbox != []
  {
    if act.AReceive? then [inbox[0]] else []
  }

  function NewlyAnnounced(act: Action): nat
  {
    if act.AAccept? then CHANNEL_WINDOW_SIZE else 0
  }

  /** Before its window is announced an end has it whole. */
  lemma UntouchedWindow(s: State)
    requires Conserved(s.b, s.a, s.ba, s.ab) && Accounted(s.a) && s.a.life.present && !Announced(s.a.life)
    ensures s.a.rx.myWindow == CHANNEL_WINDOW_SIZE
  {
  }

  lemma ActionLedger(s: State, act: Action)
    requires Inv(s) && Enabled(s.a, s.ba, act)
    ensures Ledger(s.a, Act(s.a, s.ba, act), Taken(s.ba, act), NewlyAnnounced(act))
  {
    hide Ledger, Conserved, InOrder, Limits, ClosedOnce, EofLast, Accounted;
    match act
    case AStartWrite(t, code, data) => StartWriteLedger(s.a, t, code, data);
    case AReserve(t) => ReserveLedger(s.a, t);
    case AFill(t) => FillLedger(s.a, t);
    case ASend(t, spoils) => SendLedger(s.a, t, spoils);
    case AAbandon(t) => AbandonLedger(s.a, t);
    case AEndWrite(t) => EndWriteLedger(s.a, t);
    case ARead(t, code, n) => ReadLedger(s.a, t, code, n);
    case AGrant(t) => SmallWindow(s.a); GrantLedger(s.a, t);
    case ACredit(t) => CreditLedger(s.a, t);
    case AAccept => UntouchedWindow(s); AcceptLedger(s.a);
    case ACloseWrite => ControlLedger(s.a);
    case AClose => ControlLedger(s.a);
    case AReceive =>
      SmallWindow(s.a);
      ReceiveWithoutFault(s);
      ReceiveLedger(s.a, s.ba[0]);
  }

  lemma SmallWindow(e: End)
    requires Accounted(e)
    ensures OwnWindow(e.rx) < U32_MODULUS && (e.life.present || e.rx.myWindow == 0)
  {
  }

  ghost predicate Balanced(s: State)
  {
    && Conserved(s.a, s.b, s.ab, s.ba)
    && Conserved(s.b, s.a, s.ba, s.ab)
    && Accounted(s.a)
    && Accounted(s.b)
  }

  lemma AnnouncedBy(s: State, act: Action)
    requires Inv(s) && Enabled(s.a, s.ba, act)
    ensures Announced(MoveA(s, act).a.life) <==> Announced(s.a.life) || act.AAccept?
    ensures act.AAccept? ==> !Announced(s.a.life)
    ensures s.a.life.present ==> MoveA(s, act).a.life.present
  {
    hide Conserved, InOrder, Limits, ClosedOnce, EofLast, Accounted, PoolOk, FillTx, Sealed, PacketOk, WindowAdd, Chunk;
  }

  lemma StepBalances(s: State, act: Action)
    requires Inv(s) && Enabled(s.a, s.ba, act)
    ensures Balanced(MoveA(s, act))
  {
    hide SendSide, ReceiveSide, OwnWindow, Act, Enabled, InOrder, Limits, OpenedOnce, ClosedOnce, EofLast, PoolOk;
    ActionLedger(s, act);
    AnnouncedBy(s, act);
    TakesFromInbox(s.a, s.ba, act);
    WireConcat(s.ab, Act(s.a, s.ba, act).msgs);
    if act.AReceive? {
      FlightBound(s.ba);
      OneMessage(s.ba[0]);
    } else {
      NoMessages();
    }
  }

  lemma TakesFromInbox(e: End, inbox: seq<Msg>, act: Action)
    requires Enabled(e, inbox, act)
    ensures act.AReceive? ==> inbox != []
  {
  }

  lemma NoMessages()
    ensures DataInFlight([]) == 0 && CreditInFlight([]) == 0
  {
  }

  // ---- Order ----

  /** An action moves bytes from the wire to the buffer, from the buffer to the reader, or onto the wire. */
  ghost predicate Moves(e: End, out: Out, taken: seq<Msg>, code: nat)
  {
    && out.end.rx.got.Get(code) + out.end.rx.pending.Get(code)
       == e.rx.got.Get(code) + e.rx.pending.Get(code) + StreamInFlight(taken, code)
    && out.end.tx.sent.Get(code) == e.tx.sent.Get(code) + StreamInFlight(out.msgs, code)
  }

  lemma SendMoves(e: End, t: nat, spoils: bool, code: nat)
    requires CanSend(e, t) && code <= 1 && PacketOk(e.tx.pool.arrays, e.tx.writers[t])
    ensures Moves(e, Send(e, t, spoils), [], code)
  {
    var w := e.tx.writers[t];
    SealedIsOwn(e.tx, t);
    OneStream(Data(w.code, w.space, w.todo[..w.space]), code);
  }

  lemma ReadMoves(e: End, t: nat, c: nat, n: nat, code: nat)
    requires CanRead(e, t, c, n) && code <= 1
    ensures Moves(e, Out(Read(e, t, c, n), []), [], code)
  {
    var waiting := e.rx.pending.Get(c);
    var k := Min(n, |waiting|);
    assert waiting == waiting[..k] + waiting[k..];
  }

  lemma ReceiveMoves(e: End, m: Msg, code: nat)
    requires code <= 1 && Receive(e, m).end.fault == NoFault && Sound(m)
    ensures Moves(e, Receive(e, m), [m], code)
  {
    OneStream(m, code);
    OneStream(Close, code);
  }

  lemma ActionMoves(s: State, act: Action, code: nat)
    requires Inv(s) && Enabled(s.a, s.ba, act) && code <= 1
    ensures Moves(s.a, Act(s.a, s.ba, act), Taken(s.ba, act), code)
  {
    hide Conserved, InOrder, Limits, OpenedOnce, ClosedOnce, EofLast, Accounted, FillTx, Sealed;
    match act
    case ASend(t, spoils) => SendMoves(s.a, t, spoils, code);
    case ARead(t, c, n) => ReadMoves(s.a, t, c, n, code);
    case ACredit(t) => OneStream(Adjust(s.a.rx.readers[t].n), code);
    case AAccept => OneStream(Confirm(s.a.rx.myWindow, CHANNEL_MAX_PACKET), code);
    case ACloseWrite => OneStream(Eof, code);
    case AClose => OneStream(Close, code);
    case AReceive => ReceiveWithoutFault(s); ReceiveMoves(s.a, s.ba[0], code);
    case _ =>
  }

  lemma StreamShift(front: seq<byte>, front': seq<byte>, head: seq<byte>, tail: seq<byte>, more: seq<byte>)
    requires front' == front + head
    ensures front' + tail == front + (head + tail)
    ensures front + head + (tail + more) == front + (head + tail) + more
  {
  }

  lemma StreamStep(s: State, act: Action, code: nat)
    requires Inv(s) && Enabled(s.a, s.ba, act) && code <= 1
    ensures var s' := MoveA(s, act);
            && s'.b.rx.got.Get(code) + s'.b.rx.pending.Get(code) + StreamInFlight(s'.ab, code) == s'.a.tx.sent.Get(code)
            && s'.a.rx.got.Get(code) + s'.a.rx.pending.Get(code) + StreamInFlight(s'.ba, code) == s'.b.tx.sent.Get(code)
  {
    hide Act, Enabled, Conserved, Limits, OpenedOnce, ClosedOnce, EofLast, Accounted, StreamInFlight;
    var s' := MoveA(s, act);
    var out := Act(s.a, s.ba, act);
    ActionMoves(s, act, code);
    TakesFromInbox(s.a, s.ba, act);
    WireConcat(s.ab, out.msgs);
    TakenStream(s.ba, act, code);
    StreamShift(s.a.rx.got.Get(code) + s.a.rx.pending.Get(code), s'.a.rx.got.Get(code) + s'.a.rx.pending.Get(code),
                StreamInFlight(Taken(s.ba, act), code), StreamInFlight(s'.ba, code), []);
    StreamShift(s.b.rx.got.Get(code) + s.b.rx.pending.Get(code), s.b.rx.got.Get(code) + s.b.rx.pending.Get(code),
                [], StreamInFlight(s.ab, code), StreamInFlight(out.msgs, code));
  }

  lemma TakenStream(inbox: seq<Msg>, act: Action, code: nat)
    requires act.AReceive? ==> inbox != []
    ensures StreamInFlight(inbox, code)
         == StreamInFlight(Taken(inbox, act), code) + StreamInFlight(if act.AReceive? then inbox[1..] else inbox, code)
  {
    if act.AReceive? {
      OneStream(inbox[0], code);
    }
  }

  lemma StepInOrder(s: State, act: Action)
    requires Inv(s) && Enabled(s.a, s.ba, act)
    ensures var s' := MoveA(s, act); InOrder(s'.a.tx, s'.b.rx, s'.ab) && InOrder(s'.b.tx, s'.a.rx, s'.ba)
  {
    hide MoveA, Enabled, Inv;
    StreamStep(s, act, 0);
    StreamStep(s, act, 1);
  }

  // ---- Limits, opening, closing, end of file ----

  /** What an action can put on the wire, and what it does to the end's life. */
  ghost predicate Mannered(e: End, out: Out, act: Action)
  {
    && |out.msgs| <= 1
    && (out.msgs != [] ==> !e.life.sentClose && !out.msgs[0].Open? && (out.msgs[0].Confirm? <==> act.AAccept?))
    && (out.end.life.sentClose <==> e.life.sentClose || out.msgs == [Close])
    && (out.msgs == [Eof] ==> out.end.life.sentEof)
    && out.end.life.outbound == e.life.outbound
  }

  lemma ActionMannered(s: State, act: Action)
    requires Inv(s) && Enabled(s.a, s.ba, act)
    ensures Mannered(s.a, Act(s.a, s.ba, act), act)
    ensures Act(s.a, s.ba, act).end.fault == NoFault
  {
    hide Conserved, Accounted, InOrder, Limits, EofLast, PoolOk, FillTx, Sealed, PacketOk, WindowAdd, Chunk;
    if act.AReceive? {
      ReceiveWithoutFault(s);
    }
  }

  lemma StepClosedOnce(s: State, act: Action)
    requires Inv(s) && Enabled(s.a, s.ba, act)
    ensures var s' := MoveA(s, act); ClosedOnce(s'.a.life, s'.b.life, s'.ab) && ClosedOnce(s'.b.life, s'.a.life, s'.ba)
  {
    hide Conserved, Accounted, InOrder, Limits, EofLast, OpenedOnce, Act, PoolOk;
    ActionMannered(s, act);
    RemovedBy(s, act);
    TakesFromInbox(s.a, s.ba, act);
  }

  lemma RemovedBy(s: State, act: Action)
    requires Inv(s) && Enabled(s.a, s.ba, act)
    ensures Act(s.a, s.ba, act).end.life.removed <==> s.a.life.removed || (act.AReceive? && s.ba[0].Close?)
    ensures act.AReceive? && s.ba[0].Close? ==> !s.a.life.removed && Act(s.a, s.ba, act).end.life.sentClose
  {
    hide Conserved, Accounted, InOrder, Limits, EofLast, PoolOk, FillTx, Sealed, PacketOk, WindowAdd, Chunk;
    if act.AReceive? {
      ReceiveWithoutFault(s);
    }
  }

  lemma StepLocalOpenedOnce(s: State, act: Action)
    requires Inv(s) && Enabled(s.a, s.ba, act) && !act.AReceive? && !act.AAccept?
    ensures var s' := MoveA(s, act); OpenedOnce(s'.a.life, s'.b.life, s'.ab) && OpenedOnce(s'.b.life, s'.a.life, s'.ba)
  {
    hide Conserved, Accounted, InOrder, Limits, ClosedOnce, PoolOk, FillTx, Sealed, PacketOk, WindowAdd, Chunk;
  }

  lemma StepAcceptOpenedOnce(s: State)
    requires Inv(s) && CanAccept(s.a)
    ensures var s' := MoveA(s, AAccept); OpenedOnce(s'.a.life, s'.b.life, s'.ab) && OpenedOnce(s'.b.life, s'.a.life, s'.ba)
  {
    hide Conserved, Accounted, InOrder, Limits, ClosedOnce, EofLast, Quiet, PoolOk;
    UntouchedWindow(s);
  }

  lemma StepReceiveOpenedOnce(s: State)
    requires Inv(s) && s.ba != []
    ensures var s' := MoveA(s, AReceive); OpenedOnce(s'.a.life, s'.b.life, s'.ab) && OpenedOnce(s'.b.life, s'.a.life, s'.ba)
  {
    hide Conserved, Accounted, InOrder, Limits, EofLast, Quiet, PoolOk;
    ReceiveWithoutFault(s);
  }

  lemma StepQuiet(s: State, act: Action)
    requires Inv(s) && Enabled(s.a, s.ba, act)
    ensures Quiet(MoveA(s, act).a)
  {
    hide Conserved, Accounted, InOrder, Limits, EofLast, ClosedOnce, PoolOk, FillTx, Sealed, PacketOk, WindowAdd, Chunk;
  }

  lemma SendLimits(s: State, act: Action)
    requires Inv(s) && Enabled(s.a, s.ba, act) && !act.AReceive?
    ensures SenderLimits(Act(s.a, s.ba, act).end.tx)
    ensures WireLimits(Act(s.a, s.ba, act).msgs)
  {
    hide Conserved, Accounted, InOrder, OpenedOnce, ClosedOnce, EofLast, Quiet, FillTx, Sealed;
    if act.ASend? {
      assert WriterOk(s.a.tx.maxRemote, s.a.tx.writers[act.t]);
      SealedIsOwn(s.a.tx, act.t);
    }
  }

  lemma ConnectLimits(tx: Sender, maxPacket: nat, win: nat)
    requires SenderLimits(tx) && maxPacket == CHANNEL_MAX_PACKET
    ensures SenderLimits(tx.(maxRemote := maxPacket, win := win))
  {
    forall i | 0 <= i < |tx.writers|
      ensures WriterOk(maxPacket, tx.writers[i])
    {
      assert WriterOk(tx.maxRemote, tx.writers[i]);
    }
  }

  lemma ReceiveLimits(s: State)
    requires Inv(s) && s.ba != []
    ensures SenderLimits(Receive(s.a, s.ba[0]).end.tx)
    ensures WireLimits(Receive(s.a, s.ba[0]).msgs)
  {
    hide Conserved, Accounted, InOrder, ClosedOnce, EofLast, Quiet, PoolOk;
    ReceiveWithoutFault(s);
    var m := s.ba[0];
    if m.Open? || m.Confirm? {
      ConnectLimits(s.a.tx, m.maxPacket, s.a.tx.win + m.window);
    }
  }

  lemma IncomingLimit(s: State, act: Action)
    requires Inv(s) && Enabled(s.a, s.ba, act)
    ensures Act(s.a, s.ba, act).end.rx.maxIncoming == if act.AAccept? then CHANNEL_MAX_PACKET else s.a.rx.maxIncoming
  {
    hide Conserved, Accounted, InOrder, ClosedOnce, EofLast, Quiet, PoolOk, FillTx, Sealed, PacketOk, WindowAdd, Chunk;
  }

  lemma StepLimits(s: State, act: Action)
    requires Inv(s) && Enabled(s.a, s.ba, act)
    ensures Limits(MoveA(s, act).a, MoveA(s, act).ab)
    ensures WireLimits(MoveA(s, act).ba)
  {
    hide Conserved, Accounted, InOrder, ClosedOnce, EofLast, Act, SenderLimits, PoolOk;
    TakesFromInbox(s.a, s.ba, act);
    if act.AReceive? {
      ReceiveLimits(s);
      ActReceive(s.a, s.ba);
    } else {
      SendLimits(s, act);
    }
    AnnouncedBy(s, act);
    IncomingLimit(s, act);
  }

  lemma ActReceive(e: End, inbox: seq<Msg>)
    requires inbox != []
    ensures Act(e, inbox, AReceive) == Receive(e, inbox[0])
  {
  }

  lemma NoDataConcat(wire: seq<Msg>, more: seq<Msg>, i: nat)
    requires i <= |wire| && NoData(wire[i..]) && NoData(more)
    ensures NoData((wire + more)[i..])
  {
    assert (wire + more)[i..] == wire[i..] + more;
  }

  /** A writer is active after an action only if one was before, or the action may start one. */
  lemma IdleBy(s: State, act: Action)
    requires Inv(s) && Enabled(s.a, s.ba, act)
    ensures Idle(s.a.tx.writers) && s.a.life.sentEof ==> Idle(Act(s.a, s.ba, act).end.tx.writers)
    ensures Act(s.a, s.ba, act).msgs != [] && Act(s.a, s.ba, act).msgs[0].Data? ==> !Idle(s.a.tx.writers) && !s.a.life.sentClose
  {
    hide Conserved, Accounted, InOrder, Limits, OpenedOnce, ClosedOnce, EofLast, Quiet, PoolOk, FillTx, Sealed, PacketOk, WindowAdd, Chunk;
  }

  lemma EofBy(s: State, act: Action)
    requires Inv(s) && Enabled(s.a, s.ba, act)
    ensures var e' := Act(s.a, s.ba, act).end;
            && (e'.life.sentEof <==> s.a.life.sentEof || act.ACloseWrite?)
            && (e'.life.overlapped <==> s.a.life.overlapped || (act.ACloseWrite? && !Idle(s.a.tx.writers)))
            && (act.ACloseWrite? ==> e'.tx.writers == s.a.tx.writers)
            && (Act(s.a, s.ba, act).msgs == [Eof] ==> act.ACloseWrite?)
            && (e'.rx.eof <==> s.a.rx.eof || (act.AReceive? && (s.ba[0].Eof? || s.ba[0].Close?)))
  {
    hide Conserved, Accounted, InOrder, Limits, ClosedOnce, EofLast, Quiet, PoolOk, FillTx, Sealed, PacketOk, WindowAdd, Chunk;
    if act.AReceive? {
      ReceiveWithoutFault(s);
    }
  }

  lemma StepEofLastOut(s: State, act: Action)
    requires Inv(s) && Enabled(s.a, s.ba, act)
    ensures var s' := MoveA(s, act); EofLast(s'.a, s'.b, s'.ab)
  {
    hide Act, Conserved, Accounted, InOrder, Limits, OpenedOnce, Quiet, NoData, PoolOk;
    var s' := MoveA(s, act);
    var msgs := Act(s.a, s.ba, act).msgs;
    ActionMannered(s, act);
    IdleBy(s, act);
    EofBy(s, act);
    NoDataSingle(msgs);
    if !s'.a.life.overlapped {
      forall i | 0 <= i < |s'.ab| && s'.ab[i].Eof?
        ensures s'.a.life.sentEof && NoData(s'.ab[i..])
      {
        if i < |s.ab| {
          NoDataConcat(s.ab, msgs, i);
        } else {
          assert s'.ab[i..] == msgs;
        }
      }
      if s.b.rx.eof {
        assert s.ab[0..] == s.ab && s'.ab[0..] == s'.ab;
        NoDataConcat(s.ab, msgs, 0);
      }
    }
  }

  lemma NoDataSingle(msgs: seq<Msg>)
    requires |msgs| <= 1
    ensures NoData(msgs) <==> msgs == [] || !msgs[0].Data?
  {
  }

  lemma NoDataSuffix(wire: seq<Msg>, i: nat)
    requires wire != [] && i < |wire|
    ensures NoData(wire[i..]) ==> NoData(wire[i + 1..])
  {
    if NoData(wire[i..]) {
      forall k | i < k < |wire|
        ensures !wire[k].Data?
      {
        assert wire[k] == wire[i..][k - i];
      }
    }
  }

  lemma StepEofLastIn(s: State, act: Action)
    requires Inv(s) && Enabled(s.a, s.ba, act)
    ensures var s' := MoveA(s, act); EofLast(s'.b, s'.a, s'.ba)
  {
    hide Act, Conserved, Accounted, InOrder, Limits, OpenedOnce, Quiet, NoData, PoolOk;
    var s' := MoveA(s, act);
    EofBy(s, act);
    RemovedBy(s, act);
    TakesFromInbox(s.a, s.ba, act);
    if act.AReceive? {
      assert s.ba[0..] == s.ba;
      NoDataSuffix(s.ba, 0);
      NoDataSingle([]);
      forall i | 0 <= i < |s'.ba| && s'.ba[i].Eof?
        ensures s.b.life.sentEof && (s.b.life.overlapped || NoData(s'.ba[i..]))
      {
        assert s.ba[i + 1].Eof? && s'.ba[i..] == s.ba[i + 1..];
      }
      if s.ba[0].Close? {
        assert s'.ba == [];
      }
    }
  }

  // ---- Packets ----

  /** A writer whose array was left alone. */
  lemma SamePacket(arrays: seq<Packet>, arrays': seq<Packet>, w: Writer)
    requires PacketOk(arrays, w) && |arrays| <= |arrays'|
    requires forall b :: 0 <= b < |arrays| ==> arrays'[b].code == arrays[b].code
    requires !w.NoWrite? && w.buf.Some? ==> arrays'[w.buf.value] == arrays[w.buf.value]
    ensures PacketOk(arrays', w)
  {
  }

  lemma FillPool(tx: Sender, t: nat)
    requires PoolOk(tx) && t < |tx.writers| && tx.writers[t].Holding? && tx.writers[t].space <= |tx.writers[t].todo|
    ensures PoolOk(FillTx(tx, t))
  {
    var tx' := FillTx(tx, t);
    var w := tx.writers[t];
    assert PacketOk(tx.pool.arrays, w);
    forall i | 0 <= i < |tx.writers|
      ensures PacketOk(tx'.pool.arrays, tx'.writers[i])
    {
      assert PacketOk(tx.pool.arrays, tx.writers[i]);
      if i != t {
        SamePacket(tx.pool.arrays, tx'.pool.arrays, tx.writers[i]);
      }
    }
  }

  lemma SendPool(e: End, t: nat, spoils: bool)
    requires PoolOk(e.tx) && CanSend(e, t)
    ensures PoolOk(Send(e, t, spoils).end.tx)
  {
    var tx, tx' := e.tx, Send(e, t, spoils).end.tx;
    assert PacketOk(tx.pool.arrays, tx.writers[t]);
    forall i | 0 <= i < |tx.writers|
      ensures PacketOk(tx'.pool.arrays, tx'.writers[i])
    {
      assert PacketOk(tx.pool.arrays, tx.writers[i]);
      if i != t {
        SamePacket(tx.pool.arrays, tx'.pool.arrays, tx.writers[i]);
      }
    }
  }

  /** A change of one writer that keeps its code and array, or lets go of them. */
  lemma WriterPool(tx: Sender, t: nat, w: Writer, tx': Sender)
    requires PoolOk(tx) && t < |tx.writers| && tx'.writers == tx.writers[t := w] && tx'.pool == tx.pool
    requires PacketOk(tx.pool.arrays, w)
    requires !w.NoWrite? ==> !tx.writers[t].NoWrite? && w.code == tx.writers[t].code
    ensures PoolOk(tx')
  {
    hide PacketOk, KeptOk;
  }

  lemma StartPool(e: End, t: nat, code: nat, data: seq<byte>)
    requires PoolOk(e.tx) && CanStartWrite(e, t) && Orderly(e, AStartWrite(t, code, data))
    ensures PoolOk(StartWrite(e, t, code, data).tx)
  {
    var w := NextWriter(code, data, e.tx.pool.Get(code));
    assert PacketOk(e.tx.pool.arrays, w);
    hide PacketOk;
  }

  lemma StepPool(e: End, inbox: seq<Msg>, act: Action)
    requires PoolOk(e.tx) && Enabled(e, inbox, act) && Orderly(e, act)
    ensures PoolOk(Act(e, inbox, act).end.tx)
  {
    hide PoolOk;
    match act
    case AStartWrite(t, code, data) => StartPool(e, t, code, data);
    case AReserve(t) => ReservePool(e, t);
    case AFill(t) => FillPool(e.tx, t);
    case ASend(t, spoils) => SendPool(e, t, spoils);
    case AAbandon(t) => AbandonPool(e, t);
    case AEndWrite(t) => EndPool(e, t);
    case AReceive => ReceivePool(e, inbox[0]);
    case _ => OtherPool(e, inbox, act);
  }

  lemma ReservePool(e: End, t: nat)
    requires PoolOk(e.tx) && CanReserve(e, t)
    ensures PoolOk(Reserve(e, t).tx)
  {
    assert PacketOk(e.tx.pool.arrays, e.tx.writers[t]);
    WriterPool(e.tx, t, Reserve(e, t).tx.writers[t], Reserve(e, t).tx);
  }

  lemma AbandonPool(e: End, t: nat)
    requires PoolOk(e.tx) && CanAbandon(e, t)
    ensures PoolOk(Abandon(e, t).tx)
  {
    WriterPool(e.tx, t, NoWrite, Abandon(e, t).tx);
  }

  lemma EndPool(e: End, t: nat)
    requires PoolOk(e.tx) && CanEndWrite(e, t)
    ensures PoolOk(EndWrite(e, t).tx)
  {
    assert PacketOk(e.tx.pool.arrays, e.tx.writers[t]);
    WriterPool(e.tx, t, NoWrite, e.tx.(writers := e.tx.writers[t := NoWrite]));
  }

  predicate SameWrites(tx: Sender, tx': Sender)
  {
    tx'.writers == tx.writers && tx'.pool == tx.pool
  }

  lemma SamePool(tx: Sender, tx': Sender)
    requires PoolOk(tx) && SameWrites(tx, tx')
    ensures PoolOk(tx')
  {
  }

  lemma ReceivePool(e: End, m: Msg)
    requires PoolOk(e.tx)
    ensures PoolOk(Receive(e, m).end.tx)
  {
    hide PoolOk;
    SamePool(e.tx, Receive(e, m).end.tx);
  }

  lemma OtherPool(e: End, inbox: seq<Msg>, act: Action)
    requires PoolOk(e.tx) && Enabled(e, inbox, act)
    requires act.ARead? || act.AGrant? || act.ACredit? || act.AAccept? || act.ACloseWrite? || act.AClose?
    ensures PoolOk(Act(e, inbox, act).end.tx)
  {
    hide PoolOk;
    SamePool(e.tx, Act(e, inbox, act).end.tx);
  }

  // ---- Every run ----

  lemma StepOpenedOnce(s: State, act: Action)
    requires Inv(s) && Enabled(s.a, s.ba, act)
    ensures var s' := MoveA(s, act); OpenedOnce(s'.a.life, s'.b.life, s'.ab) && OpenedOnce(s'.b.life, s'.a.life, s'.ba)
  {
    hide Inv, OpenedOnce, Act;
    if act.AReceive? {
      StepReceiveOpenedOnce(s);
    } else if act.AAccept? {
      StepAcceptOpenedOnce(s);
    } else {
      StepLocalOpenedOnce(s, act);
    }
  }

  lemma OtherEndStays(s: State, act: Action)
    requires Inv(s) && Enabled(s.a, s.ba, act)
    ensures MoveA(s, act).b == s.b && Limits(s.b, s.ba) && Quiet(s.b) && PoolOk(s.b.tx) && s.b.fault == NoFault
    ensures s.a.life.outbound != s.b.life.outbound
  {
    hide Act, Conserved, Accounted, InOrder, EofLast, ClosedOnce, OpenedOnce;
  }

  lemma MoveKeepsInv(s: State, act: Action)
    requires Inv(s) && Enabled(s.a, s.ba, act) && Orderly(s.a, act)
    ensures Inv(MoveA(s, act))
  {
    StepPool(s.a, s.ba, act);
    StepBalances(s, act);
    StepInOrder(s, act);
    StepLimits(s, act);
    StepOpenedOnce(s, act);
    StepClosedOnce(s, act);
    StepEofLastOut(s, act);
    StepEofLastIn(s, act);
    StepQuiet(s, act);
    OtherEndStays(s, act);
    ActionMannered(s, act);
    hide Act, Enabled, Conserved, Accounted, InOrder, EofLast, ClosedOnce, OpenedOnce, Quiet, SenderLimits, WireLimits, PoolOk;
  }

  lemma StepKeepsInv(s: State, step: Step)
    requires Inv(s) && CanStep(s, step)
    ensures Inv(Next(s, step))
  {
    hide Directed, Enabled, MoveA, Orderly;
    if step.byA {
      MoveKeepsInv(s, step.action);
    } else {
      MoveKeepsInv(Swap(s), step.action);
    }
  }

  lemma {:induction false} RunKeepsInv(s: State, steps: seq<Step>)
    requires Inv(s) && IsRun(s, steps)
    ensures Inv(After(s, steps))
    decreases |steps|
  {
    hide Inv, Next, Enabled, Orderly;
    if steps != [] {
      StepKeepsInv(s, steps[0]);
      RunKeepsInv(Next(s, steps[0]), steps[1..]);
    }
  }

  ghost predicate Leads(first: State, steps: seq<Step>, last: State)
  {
    IsRun(first, steps) && After(first, steps) == last
  }

  /** A state that some run from some opening reaches. */
  ghost predicate Reachable(s: State)
  {
    exists first: State, steps: seq<Step> :: IsOpening(first) && Leads(first, steps, s)
  }

  lemma ReachableInv(s: State)
    requires Reachable(s)
    ensures Inv(s)
  {
    hide Inv, IsRun, After, Opening;
    var first: State, steps: seq<Step> :| IsOpening(first) && Leads(first, steps, s);
    OpeningHolds(|first.a.tx.writers|, |first.a.rx.readers|, |first.b.tx.writers|, |first.b.rx.readers|);
    RunKeepsInv(first, steps);
  }

  /** Section 5.2 of RFC 4254 over whole runs: no byte of window is created or lost, in either
      direction, and neither end's counters leave their range. */
  lemma WindowConserved(s: State)
    requires Reachable(s)
    ensures Conserved(s.a, s.b, s.ab, s.ba) && Conserved(s.b, s.a, s.ba, s.ab)
    ensures Accounted(s.a) && Accounted(s.b)
    ensures s.a.tx.win <= CHANNEL_WINDOW_SIZE && s.a.rx.myWindow <= CHANNEL_WINDOW_SIZE
    ensures s.b.tx.win <= CHANNEL_WINDOW_SIZE && s.b.rx.myWindow <= CHANNEL_WINDOW_SIZE
  {
    ReachableInv(s);
    HeadFits(s.a, s.b, s.ab, s.ba);
    HeadFits(s.b, s.a, s.ba, s.ab);
  }

  /** Two ends that follow the source never make each other's mux loop give up. */
  lemma HonestEndsNeverFault(s: State)
    requires Reachable(s)
    ensures s.a.fault == NoFault && s.b.fault == NoFault
    ensures s.ba != [] ==> Receive(s.a, s.ba[0]).end.fault == NoFault
    ensures s.ab != [] ==> Receive(s.b, s.ab[0]).end.fault == NoFault
  {
    ReachableInv(s);
    if s.ba != [] { ReceiveWithoutFault(s); }
    if s.ab != [] { ReceiveWithoutFault(Swap(s)); }
  }

  /** Standard output and standard error arrive in order, complete up to what is on its way. */
  lemma OrderedDelivery(s: State, code: nat)
    requires Reachable(s) && code <= 1
    ensures s.b.rx.got.Get(code) <= s.a.tx.sent.Get(code)
    ensures s.a.rx.got.Get(code) <= s.b.tx.sent.Get(code)
  {
    ReachableInv(s);
    hide Conserved, Accounted, Limits, OpenedOnce, ClosedOnce, EofLast, Quiet;
    assert s.b.rx.got.Get(code) + s.b.rx.pending.Get(code) + StreamInFlight(s.ab, code) == s.a.tx.sent.Get(code);
    assert s.a.rx.got.Get(code) + s.a.rx.pending.Get(code) + StreamInFlight(s.ba, code) == s.b.tx.sent.Get(code);
  }

  // ---- End of file ----

  /** Nothing more can be sent from the first end. */
  ghost predicate Finished(s: State)
  {
    s.a.life.sentClose || (s.a.life.sentEof && !s.a.life.overlapped)
  }

  lemma FinishedMove(s: State, act: Action)
    requires Inv(s) && Enabled(s.a, s.ba, act) && Finished(s)
    ensures MoveA(s, act).a.tx.sent == s.a.tx.sent && Finished(MoveA(s, act))
  {
    hide Conserved, Accounted, InOrder, Limits, OpenedOnce, ClosedOnce, Quiet, PoolOk, FillTx, Sealed, PacketOk, WindowAdd, Chunk;
  }

  lemma OtherMove(s: State, act: Action)
    requires Enabled(s.b, s.ab, act)
    ensures Next(s, Step(false, act)).a == s.a
  {
    hide Act, Enabled;
  }

  lemma {:induction false} FinishedForever(s: State, steps: seq<Step>)
    requires Inv(s) && Finished(s) && IsRun(s, steps)
    ensures After(s, steps).a.tx.sent == s.a.tx.sent
    decreases |steps|
  {
    hide Inv, Enabled, MoveA;
    if steps != [] {
      StepKeepsInv(s, steps[0]);
      if steps[0].byA {
        FinishedMove(s, steps[0].action);
      } else {
        OtherMove(s, steps[0].action);
      }
      FinishedForever(Next(s, steps[0]), steps[1..]);
    }
  }

  lemma FinishedByEof(s: State, code: nat)
    requires Inv(s) && ReadsEof(s.b, code) && !s.a.life.overlapped
    ensures Finished(s) && s.b.rx.got.Get(code) == s.a.tx.sent.Get(code)
  {
    hide Conserved, Accounted, Limits, OpenedOnce, Quiet;
    NoStream(s.ab, code);
    assert s.b.rx.got.Get(code) + s.b.rx.pending.Get(code) + StreamInFlight(s.ab, code) == s.a.tx.sent.Get(code);
  }

  lemma {:induction false} NoStream(wire: seq<Msg>, code: nat)
    requires NoData(wire)
    ensures StreamInFlight(wire, code) == []
  {
    if wire != [] {
      NoStream(wire[1..], code);
    }
  }

  // The same seen from the other end.

  function Mirror(steps: seq<Step>): (r: seq<Step>)
    ensures |r| == |steps|
  {
    if steps == [] then [] else [Step(!steps[0].byA, steps[0].action)] + Mirror(steps[1..])
  }

  lemma {:induction false} MirrorRun(s: State, steps: seq<Step>)
    requires IsRun(s, steps)
    ensures IsRun(Swap(s), Mirror(steps)) && After(Swap(s), Mirror(steps)) == Swap(After(s, steps))
    decreases |steps|
  {
    hide Enabled, MoveA;
    if steps != [] {
      assert Swap(Swap(s)) == s;
      assert Next(Swap(s), Mirror(steps)[0]) == Swap(Next(s, steps[0]));
      MirrorRun(Next(s, steps[0]), steps[1..]);
      assert Mirror(steps)[1..] == Mirror(steps[1..]);
    }
  }

  /** End of file is final: it is reported only when all the peer ever wrote, then or in any
      continuation of the run, has been read. The one exception is a CloseWrite that
      overlapped a Write. */
  lemma EofIsComplete(s: State, code: nat, steps: seq<Step>)
    requires Reachable(s) && IsRun(s, steps)
    ensures ReadsEof(s.b, code) && !s.a.life.overlapped ==> s.b.rx.got.Get(code) == After(s, steps).a.tx.sent.Get(code)
    ensures ReadsEof(s.a, code) && !s.b.life.overlapped ==> s.a.rx.got.Get(code) == After(s, steps).b.tx.sent.Get(code)
  {
    hide Directed;
    ReachableInv(s);
    if ReadsEof(s.b, code) && !s.a.life.overlapped {
      FinishedByEof(s, code);
      FinishedForever(s, steps);
    }
    if ReadsEof(s.a, code) && !s.b.life.overlapped {
      MirrorRun(s, steps);
      FinishedByEof(Swap(s), code);
      FinishedForever(Swap(s), Mirror(steps));
    }
  }

  // ---- Going on with a run ----

  lemma {:induction false} RunExtend(s: State, steps: seq<Step>, step: Step)
    requires IsRun(s, steps) && CanStep(After(s, steps), step)
    ensures IsRun(s, steps + [step]) && After(s, steps + [step]) == Next(After(s, steps), step)
    decreases |steps|
  {
    hide Enabled, Orderly, Next;
    if steps == [] {
      assert steps + [step] == [step] && [step][1..] == [];
      assert IsRun(Next(s, step), []);
    } else {
      assert (steps + [step])[1..] == steps[1..] + [step];
      RunExtend(Next(s, steps[0]), steps[1..], step);
    }
  }

  lemma ReachableStep(s: State, step: Step)
    requires Reachable(s) && CanStep(s, step)
    ensures Reachable(Next(s, step))
  {
    hide IsOpening, Enabled, Orderly, Next;
    var first: State, steps: seq<Step> :| IsOpening(first) && Leads(first, steps, s);
    RunExtend(first, steps, step);
    assert Leads(first, steps + [step], Next(s, step));
  }

  lemma OpeningReachable(s: State)
    requires IsOpening(s)
    ensures Reachable(s)
  {
    hide IsOpening;
    assert Leads(s, [], s);
  }
}
