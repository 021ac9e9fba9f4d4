/** Window that never comes back. Bytes on codes above 1 are charged to the window and dropped, and no credit
    is sent for them (section 5.2 of RFC 4254 leaves the receiver to adjust the window). */
module Stalled {
  import opened Bytes
  import opened Endpoint
  import opened FlowControl
  import opened FlowRuns

  /** Window held by Writes on the two standard streams, or by the other Writes. */
  function HeldOn(ws: seq<Writer>, standard: bool): nat
  {
    if ws == [] then 0
    else (if ws[0].Holding? && (ws[0].code <= 1) == standard then ws[0].space else 0) + HeldOn(ws[1..], standard)
  }

  /** Window that is lost or on its way to being lost. */
  function Lost(s: State): nat
  {
    s.b.rx.discarded + s.b.rx.refused + s.a.tx.forfeited + OtherInFlight(s.ab) + HeldOn(s.a.tx.writers, false)
  }

  lemma {:induction false} HeldSplit(ws: seq<Writer>)
    ensures Held(ws) == HeldOn(ws, true) + HeldOn(ws, false)
  {
    if ws != [] {
      HeldSplit(ws[1..]);
    }
  }

  lemma {:induction false} HeldOnUpdate(ws: seq<Writer>, t: nat, w: Writer, standard: bool)
    requires t < |ws|
    ensures HeldOn(ws[t := w], standard) == HeldOn(ws, standard) - HeldOn([ws[t]], standard) + HeldOn([w], standard)
  {
    assert HeldOn([ws[t]][1..], standard) == 0 && HeldOn([w][1..], standard) == 0;
    if t == 0 {
      assert ws[t := w][1..] == ws[1..];
    } else {
      assert ws[t := w][1..] == ws[1..][t - 1 := w];
      HeldOnUpdate(ws[1..], t - 1, w, standard);
    }
  }

  lemma {:induction false} HoldsPart(ws: seq<Writer>, t: nat)
    requires t < |ws| && ws[t].Holding?
    ensures ws[t].space <= HeldOn(ws, ws[t].code <= 1)
  {
    if t > 0 {
      HoldsPart(ws[1..], t - 1);
    }
  }

  /** A Write on a standard stream that has reserved some window. */
  predicate HoldsStandard(w: Writer)
  {
    w.Holding? && w.code <= 1 && w.space > 0
  }

  lemma {:induction false} HeldBySome(ws: seq<Writer>) returns (t: nat)
    requires HeldOn(ws, true) > 0
    ensures t < |ws| && HoldsStandard(ws[t])
  {
    if HoldsStandard(ws[0]) {
      t := 0;
    } else {
      t := HeldBySome(ws[1..]);
      t := t + 1;
    }
  }

  lemma {:induction false} OtherConcat(wire: seq<Msg>, more: seq<Msg>)
    ensures OtherInFlight(wire + more) == OtherInFlight(wire) + OtherInFlight(more)
  {
    if wire == [] {
      assert wire + more == more;
    } else {
      assert (wire + more)[1..] == wire[1..] + more;
      OtherConcat(wire[1..], more);
    }
  }

  lemma {:induction false} OtherPart(wire: seq<Msg>)
    ensures OtherInFlight(wire) <= DataInFlight(wire)
  {
    if wire != [] {
      OtherPart(wire[1..]);
    }
  }

  lemma OtherOne(m: Msg)
    ensures OtherInFlight([m]) == if m.Data? && m.code > 1 then |m.bytes| else 0
  {
    assert [m][1..] == [];
  }

  /** What is lost, and what the standard streams hold, is part of the window. */
  lemma LostBound(s: State)
    requires Inv(s)
    ensures Lost(s) + HeldOn(s.a.tx.writers, true) <= CHANNEL_WINDOW_SIZE
  {
    hide Accounted, InOrder, Limits, OpenedOnce, ClosedOnce, EofLast, Quiet, PoolOk;
    HeldSplit(s.a.tx.writers);
    OtherPart(s.ab);
  }

  // ---- No step gives any of it back ----

  /** What the first end's own part of `Lost` comes to after an action. */
  ghost predicate Grows(tx: Sender, out: Out)
  {
    && (tx.forfeited + HeldOn(tx.writers, false)
        <= out.end.tx.forfeited + OtherInFlight(out.msgs) + HeldOn(out.end.tx.writers, false))
    && (HeldOn(tx.writers, true) == 0 ==> out.end.tx.sent == tx.sent)
  }

  /** A piece of Write other than sending. */
  predicate IsWriting(act: Action)
  {
    act.AStartWrite? || act.AReserve? || act.AFill? || act.AAbandon? || act.AEndWrite?
  }

  lemma WritingGrows(e: End, inbox: seq<Msg>, act: Action)
    requires Enabled(e, inbox, act) && IsWriting(act)
    ensures Grows(e.tx, Act(e, inbox, act))
  {
    var w := Act(e, inbox, act).end.tx.writers[act.t];
    HeldOnUpdate(e.tx.writers, act.t, w, false);
    assert Act(e, inbox, act).end.tx.writers == e.tx.writers[act.t := w];
  }

  lemma SendGrows(e: End, t: nat, spoils: bool)
    requires CanSend(e, t) && PacketOk(e.tx.pool.arrays, e.tx.writers[t])
    ensures Grows(e.tx, Send(e, t, spoils))
  {
    var w := e.tx.writers[t];
    SealedIsOwn(e.tx, t);
    HeldOnUpdate(e.tx.writers, t, Send(e, t, spoils).end.tx.writers[t], false);
    OtherOne(Data(w.code, w.space, w.todo[..w.space]));
    HoldsPart(e.tx.writers, t);
  }

  lemma OtherGrows(e: End, inbox: seq<Msg>, act: Action)
    requires Enabled(e, inbox, act) && !IsWriting(act) && !act.ASend?
    ensures Grows(e.tx, Act(e, inbox, act))
  {
    hide HeldOn;
  }

  lemma LostByFirst(s: State, act: Action)
    requires Inv(s) && Enabled(s.a, s.ba, act)
    ensures Lost(s) <= Lost(MoveA(s, act))
    ensures Lost(s) == CHANNEL_WINDOW_SIZE ==> MoveA(s, act).a.tx.sent == s.a.tx.sent
  {
    LostBound(s);
    OtherConcat(s.ab, Act(s.a, s.ba, act).msgs);
    OtherEnd(s, act);
    if act.ASend? {
      SendGrows(s.a, act.t, act.spoils);
    } else if IsWriting(act) {
      WritingGrows(s.a, s.ba, act);
    } else {
      OtherGrows(s.a, s.ba, act);
    }
    hide Act, Enabled, Inv, HeldOn, OtherInFlight;
  }

  lemma SecondKeeps(e: End, inbox: seq<Msg>, act: Action)
    requires Enabled(e, inbox, act) && !act.AReceive?
    ensures var r := Act(e, inbox, act).end.rx; r.discarded == e.rx.discarded && r.refused >= e.rx.refused
  {
  }

  lemma SecondReceives(e: End, m: Msg)
    requires Receive(e, m).end.fault == NoFault && Sound(m)
    ensures var r := Receive(e, m).end.rx;
            r.discarded == e.rx.discarded + OtherInFlight([m]) && r.refused == e.rx.refused
  {
    OtherOne(m);
  }

  lemma LostBySecond(s: State, act: Action)
    requires Inv(s) && Enabled(s.b, s.ab, act)
    ensures Lost(s) <= Lost(Next(s, Step(false, act)))
  {
    OtherMove(s, act);
    if act.AReceive? {
      ReceiveWithoutFault(Swap(s));
      SecondReceives(s.b, s.ab[0]);
      OtherOne(s.ab[0]);
      hide Receive, Inv;
    } else {
      SecondKeeps(s.b, s.ab, act);
      hide Act, Inv;
    }
  }

  lemma {:induction false} StalledRun(s: State, steps: seq<Step>)
    requires Inv(s) && IsRun(s, steps) && Lost(s) == CHANNEL_WINDOW_SIZE
    ensures After(s, steps).a.tx.sent == s.a.tx.sent
    decreases |steps|
  {
    hide Inv, Enabled, MoveA, Lost;
    if steps != [] {
      var m := Next(s, steps[0]);
      StepKeepsInv(s, steps[0]);
      if steps[0].byA {
        LostByFirst(s, steps[0].action);
      } else {
        LostBySecond(s, steps[0].action);
        OtherMove(s, steps[0].action);
      }
      LostBound(m);
      StalledRun(m, steps[1..]);
    }
  }

  /** Once all of the window is lost, no continuation sends a byte on the two standard streams. */
  lemma StalledForever(s: State)
    requires Reachable(s) && Lost(s) == CHANNEL_WINDOW_SIZE
    ensures forall m :: Continues(s, m) ==> m.a.tx.sent == s.a.tx.sent
  {
    ReachableInv(s);
    hide Inv, Lost, IsRun, After;
    forall m | Continues(s, m)
      ensures m.a.tx.sent == s.a.tx.sent
    {
      var steps: seq<Step> :| Leads(s, steps, m);
      StalledRun(s, steps);
    }
  }

  // ---- Short of that, the stream can go on ----

  lemma SentMore(e: End, t: nat)
    requires CanSend(e, t) && !e.life.sentClose && HoldsStandard(e.tx.writers[t])
    requires PacketOk(e.tx.pool.arrays, e.tx.writers[t])
    ensures var r := Send(e, t, false);
            && r.end.tx.sent.Total() == e.tx.sent.Total() + e.tx.writers[t].space
            && OtherInFlight(r.msgs) == 0
            && HeldOn(r.end.tx.writers, true) == HeldOn(e.tx.writers, true) - e.tx.writers[t].space
            && HeldOn(r.end.tx.writers, false) == HeldOn(e.tx.writers, false)
  {
    var w := e.tx.writers[t];
    SealedIsOwn(e.tx, t);
    OtherOne(Data(w.code, w.space, w.todo[..w.space]));
    var w' := Send(e, t, false).end.tx.writers[t];
    HeldOnUpdate(e.tx.writers, t, w', true);
    HeldOnUpdate(e.tx.writers, t, w', false);
    assert [w][1..] == [] && [w'][1..] == [];
  }

  /** A standard Write that holds window can send what it holds. */
  lemma SendHeld(s: State, m: State, t: nat) returns (r: State)
    requires Continues(s, m) && Inv(m) && !m.a.life.sentClose && t < |m.a.tx.writers| && HoldsStandard(m.a.tx.writers[t])
    ensures Continues(s, r) && Inv(r) && r.a.tx.sent != m.a.tx.sent && r.b == m.b && r.a.life == m.a.life
    ensures Lost(r) == Lost(m) && HeldOn(r.a.tx.writers, true) < HeldOn(m.a.tx.writers, true)
    ensures r.a.tx.maxRemote == m.a.tx.maxRemote && r.a.tx.closed == m.a.tx.closed
    ensures |r.a.tx.writers| == |m.a.tx.writers| && r.a.tx.writers == m.a.tx.writers[t := r.a.tx.writers[t]]
    ensures EofOnWay(m) ==> EofOnWay(r)
  {
    hide Continues, Inv, HeldOn, OtherInFlight, Sealed, PacketOk;
    var full := FillPacket(s, m, t);
    FillKeepsHeld(m, full, t);
    HolderSeals(full, t);
    SentMore(full.a, t);
    OtherConcat(full.ab, Send(full.a, t, false).msgs);
    r := GoOn(s, full, Step(true, ASend(t, false)));
    if i :| 0 <= i < |m.ab| && m.ab[i].Eof? {
      assert r.ab[i].Eof?;
    }
  }

  lemma FillKeepsHeld(m: State, r: State, t: nat)
    requires FilledFor(m, r, t)
    ensures forall standard :: HeldOn(r.a.tx.writers, standard) == HeldOn(m.a.tx.writers, standard)
  {
    var w := r.a.tx.writers[t];
    forall standard
      ensures HeldOn(r.a.tx.writers, standard) == HeldOn(m.a.tx.writers, standard)
    {
      HeldOnUpdate(m.a.tx.writers, t, w, standard);
      assert [w][1..] == [] && [m.a.tx.writers[t]][1..] == [];
    }
  }

  /** Nothing stops a Write of one byte on `code` by goroutine `t`, and somebody reads at the other end. */
  predicate Usable(s: State, t: nat, code: nat)
  {
    && s.a.life.decided && !s.a.life.sentEof && !s.a.life.sentClose && !s.b.life.sentClose
    && |s.b.rx.readers| > 0 && code <= 1
    && t < |s.a.tx.writers| && s.a.tx.writers[t].NoWrite?
    && forall i :: 0 <= i < |s.a.tx.writers| && !s.a.tx.writers[i].NoWrite? ==> s.a.tx.writers[i].code != code
  }

  lemma StartOne(s: State, m: State, t: nat, code: nat) returns (r: State)
    requires Continues(s, m) && Inv(m) && Usable(m, t, code) && m.a.tx.win > 0
    requires !m.a.tx.closed && m.a.tx.maxRemote == CHANNEL_MAX_PACKET
    ensures Continues(s, r) && Inv(r) && r.a.tx.sent == m.a.tx.sent && r.a.life == m.a.life
    ensures t < |r.a.tx.writers| && r.a.tx.writers[t].Holding? && r.a.tx.writers[t].code == code && r.a.tx.writers[t].space == 1
  {
    hide Continues, Inv;
    var begin := Step(true, AStartWrite(t, code, [0]));
    ContinuesStep(s, m, begin);
    StepKeepsInv(m, begin);
    r := Next(m, begin);
    r := GoOn(s, r, Step(true, AReserve(t)));
  }

  lemma CanGoOn(s: State, t: nat, code: nat) returns (r: State)
    requires Inv(s) && Usable(s, t, code) && Lost(s) < CHANNEL_WINDOW_SIZE && Settled(s.a)
    ensures Continues(s, r) && r.a.tx.sent != s.a.tx.sent
  {
    DecidedSettled(s);
    hide Continues, Inv, HeldOn, OtherInFlight, Held, EofOnWay;
    ContinuesHere(s);
    if HeldOn(s.a.tx.writers, true) > 0 {
      var u := HeldBySome(s.a.tx.writers);
      r := SendHeld(s, s, u);
    } else {
      r := Refill(s, s);
      HeldSplit(s.a.tx.writers);
      r := StartOne(s, r, t, code);
      r := SendHeld(s, r, t);
    }
  }

  lemma DecidedSettled(s: State)
    requires Inv(s) && Settled(s.a) && s.a.life.decided
    ensures s.a.tx.maxRemote == CHANNEL_MAX_PACKET
  {
    hide Conserved, Accounted, InOrder, Limits, ClosedOnce, EofLast, Quiet, PoolOk;
  }

  /** The exact condition: a channel with a free writer and a reader is stuck for good if and only if all of the
      window is lost. */
  lemma StalledIff(s: State, t: nat, code: nat)
    requires Reachable(s) && Usable(s, t, code)
    ensures Lost(s) == CHANNEL_WINDOW_SIZE <==> forall m :: Continues(s, m) ==> m.a.tx.sent == s.a.tx.sent
  {
    hide Reachable, Continues, Inv, Lost, Usable;
    ReachableInv(s);
    LostBound(s);
    if Lost(s) == CHANNEL_WINDOW_SIZE {
      StalledForever(s);
    } else {
      ReachableSettled(s);
      var r := CanGoOn(s, t, code);
    }
  }

  // ---- It does happen ----

  function Zeros(n: nat): (r: seq<byte>)
    ensures |r| == n
  {
    seq(n, _ => 0)
  }

  /** After full packets on code 2 that came to `lost` bytes. */
  predicate Spent(s: State, lost: nat)
  {
    && s.ab == [] && s.ba == [] && Usable(s, 0, 0) && s.a.tx.writers == [NoWrite] && Settled(s.a)
    && s.a.tx.maxRemote == CHANNEL_MAX_PACKET && s.a.tx.forfeited == 0 && s.b.rx.refused == 0
    && s.b.rx.discarded == lost && s.a.tx.win + lost == CHANNEL_WINDOW_SIZE
  }

  predicate SameTerms(tx: Sender, other: Sender)
  {
    tx.maxRemote == other.maxRemote && tx.closed == other.closed && tx.forfeited == other.forfeited
  }

  /** A full packet on code 2 is filled in. */
  lemma HoldBlock(s: State, lost: nat) returns (r: State)
    requires Reachable(s) && Spent(s, lost) && lost + CHANNEL_MAX_PACKET <= CHANNEL_WINDOW_SIZE
    ensures Continues(s, r) && Inv(r) && r.b == s.b && r.ab == [] && r.ba == [] && r.a.life == s.a.life && !s.a.life.sentClose
    ensures CanSend(r.a, 0) && |r.a.tx.writers| == 1 && r.a.tx.writers[0].code == 2
    ensures r.a.tx.writers[0].todo == Zeros(CHANNEL_MAX_PACKET) && r.a.tx.writers[0].space == CHANNEL_MAX_PACKET
    ensures SameTerms(s.a.tx, r.a.tx)
    ensures r.a.tx.win + CHANNEL_MAX_PACKET == s.a.tx.win
  {
    ReachableInv(s);
    hide Continues, Reachable, Inv, Zeros;
    ContinuesHere(s);
    var begin := Step(true, AStartWrite(0, 2, Zeros(CHANNEL_MAX_PACKET)));
    ContinuesStep(s, s, begin);
    StepKeepsInv(s, begin);
    r := Next(s, begin);
    r := GoOn(s, r, Step(true, AReserve(0)));
    r := FillPacket(s, r, 0);
  }

  lemma BlockSent(e: End)
    requires CanSend(e, 0) && |e.tx.writers| == 1 && !e.life.sentClose && PacketOk(e.tx.pool.arrays, e.tx.writers[0])
    requires var w := e.tx.writers[0]; w.code == 2 && w.todo == Zeros(CHANNEL_MAX_PACKET) && w.space == CHANNEL_MAX_PACKET
    ensures var out := Send(e, 0, false);
            && out.msgs == [Data(2, CHANNEL_MAX_PACKET, Zeros(CHANNEL_MAX_PACKET))] && out.end.life == e.life
            && |out.end.tx.writers| == 1 && out.end.tx.writers[0].Ending?
            && out.end.tx == e.tx.(writers := out.end.tx.writers, pool := out.end.tx.pool)
  {
    hide Zeros, Sealed, PacketOk;
    SealedIsOwn(e.tx, 0);
    assert Zeros(CHANNEL_MAX_PACKET)[..CHANNEL_MAX_PACKET] == Zeros(CHANNEL_MAX_PACKET) && Zeros(CHANNEL_MAX_PACKET)[CHANNEL_MAX_PACKET..] == [];
  }

  lemma PutOnWire(s: State, m: State) returns (r: State)
    requires Continues(s, m) && Inv(m) && m.ab == [] && !m.a.life.sentClose && CanSend(m.a, 0) && |m.a.tx.writers| == 1
    requires var w := m.a.tx.writers[0]; w.code == 2 && w.todo == Zeros(CHANNEL_MAX_PACKET) && w.space == CHANNEL_MAX_PACKET
    ensures Continues(s, r) && Inv(r) && r.b == m.b && r.ab == [Data(2, CHANNEL_MAX_PACKET, Zeros(CHANNEL_MAX_PACKET))] && r.ba == m.ba
    ensures r.a.life == m.a.life && |r.a.tx.writers| == 1 && r.a.tx.writers[0].Ending?
    ensures r.a.tx.win == m.a.tx.win && SameTerms(m.a.tx, r.a.tx)
  {
    hide Continues, Inv, PacketOk, Send, Zeros;
    HolderSeals(m, 0);
    BlockSent(m.a);
    r := GoOn(s, m, Step(true, ASend(0, false)));
  }

  lemma Return(s: State, m: State) returns (r: State)
    requires Continues(s, m) && Inv(m) && |m.a.tx.writers| == 1 && m.a.tx.writers[0].Ending?
    ensures Continues(s, r) && Inv(r) && r.b == m.b && r.ab == m.ab && r.ba == m.ba && r.a.life == m.a.life
    ensures r.a.tx.writers == [NoWrite] && r.a.tx.win == m.a.tx.win && SameTerms(m.a.tx, r.a.tx)
  {
    hide Continues, Inv;
    r := GoOn(s, m, Step(true, AEndWrite(0)));
  }

  /** The packet is on the wire and the Write has returned. */
  lemma SendBlock(s: State, lost: nat) returns (r: State)
    requires Reachable(s) && Spent(s, lost) && lost + CHANNEL_MAX_PACKET <= CHANNEL_WINDOW_SIZE
    ensures Continues(s, r) && Inv(r) && r.b == s.b && r.ab == [Data(2, CHANNEL_MAX_PACKET, Zeros(CHANNEL_MAX_PACKET))] && r.ba == []
    ensures r.a.life == s.a.life && r.a.tx.writers == [NoWrite] && r.a.tx.win + CHANNEL_MAX_PACKET == s.a.tx.win
    ensures SameTerms(s.a.tx, r.a.tx)
  {
    hide Continues, Reachable, Inv, Spent, CanSend, Zeros;
    r := HoldBlock(s, lost);
    r := PutOnWire(s, r);
    r := Return(s, r);
  }

  lemma SpendBlock(s: State, lost: nat) returns (r: State)
    requires Reachable(s) && Spent(s, lost) && lost + CHANNEL_MAX_PACKET <= CHANNEL_WINDOW_SIZE
    ensures Reachable(r) && Spent(r, lost + CHANNEL_MAX_PACKET)
  {
    hide Continues, Reachable, Inv, Zeros, Next, OtherInFlight;
    r := SendBlock(s, lost);
    DeliverNext(r);
    OtherOne(r.ab[0]);
    OtherNone();
    r := GoOn(s, r, Step(false, AReceive));
    ContinuesReachable(s, r);
  }

  lemma OtherNone()
    ensures OtherInFlight([]) == 0
  {
  }

  lemma {:induction false} SpendBlocks(k: nat) returns (s: State)
    requires k <= 64
    ensures Reachable(s) && Spent(s, k * CHANNEL_MAX_PACKET)
  {
    hide Reachable;
    if k == 0 {
      s := Joined(1, 0, 0, 1);
      JoinedReachable(1, 0, 0, 1);
    } else {
      s := SpendBlocks(k - 1);
      s := SpendBlock(s, (k - 1) * CHANNEL_MAX_PACKET);
    }
  }

  /** Sixty-four full packets on a code that nobody reads stop a channel that is otherwise in order. */
  lemma StallHappens() returns (s: State)
    ensures Reachable(s) && Usable(s, 0, 0) && Lost(s) == CHANNEL_WINDOW_SIZE
    ensures forall m :: Continues(s, m) ==> m.a.tx.sent == s.a.tx.sent
  {
    s := SpendBlocks(64);
    NothingHeld(s.a.tx.writers);
    HeldSplit(s.a.tx.writers);
    hide Reachable, Continues;
    StalledForever(s);
  }
}
