/** Continuing a run of two ends: everything on a wire can be delivered, and a reader can empty its stream. */
module FlowRuns {
  import opened Bytes
  import opened Endpoint
  import opened FlowControl

  /** Some run leads from the one state to the other. */
  ghost predicate Continues(s: State, m: State)
  {
    exists steps: seq<Step> :: Leads(s, steps, m)
  }

  lemma ContinuesHere(s: State)
    ensures Continues(s, s)
  {
    assert Leads(s, [], s);
  }

  lemma ContinuesStep(s: State, m: State, step: Step)
    requires Continues(s, m) && CanStep(m, step)
    ensures Continues(s, Next(m, step))
  {
    hide IsRun, After, Enabled, Orderly, Next;
    var steps: seq<Step> :| Leads(s, steps, m);
    RunExtend(s, steps, step);
    assert Leads(s, steps + [step], Next(m, step));
  }

  /** A step that is always in order. */
  lemma GoOn(s: State, m: State, step: Step) returns (r: State)
    requires Continues(s, m) && Inv(m) && Possible(m, step) && !step.action.AStartWrite?
    ensures r == Next(m, step) && Continues(s, r) && Inv(r)
  {
    hide Continues, Inv, Enabled, Next;
    r := Next(m, step);
    ContinuesStep(s, m, step);
    StepKeepsInv(m, step);
  }

  lemma {:induction false} ReachableRun(s: State, steps: seq<Step>)
    requires Reachable(s) && IsRun(s, steps)
    ensures Reachable(After(s, steps))
    decreases |steps|
  {
    hide Reachable, Enabled, Orderly, Next;
    if steps != [] {
      ReachableStep(s, steps[0]);
      ReachableRun(Next(s, steps[0]), steps[1..]);
    }
  }

  lemma ContinuesReachable(s: State, m: State)
    requires Reachable(s) && Continues(s, m)
    ensures Reachable(m)
  {
    hide Reachable, IsRun, After;
    var steps: seq<Step> :| Leads(s, steps, m);
    ReachableRun(s, steps);
  }

  // ---- Two ends that have just met ----

  function Fresh(outbound: bool, writers: nat, readers: nat): End
  {
    End(Life(true, outbound, true, false, false, false, false),
        Sender(CHANNEL_WINDOW_SIZE, false, CHANNEL_MAX_PACKET, seq(writers, _ => NoWrite), Pool([], map[]), NO_STREAMS, 0),
        Receiver(CHANNEL_WINDOW_SIZE, CHANNEL_MAX_PACKET, NO_STREAMS, false, seq(readers, _ => NoRead), NO_STREAMS, 0, 0),
        NoFault)
  }

  function Joined(aWriters: nat, aReaders: nat, bWriters: nat, bReaders: nat): State
  {
    State(Fresh(true, aWriters, aReaders), Fresh(false, bWriters, bReaders), [], [])
  }

  lemma JoinedReachable(aWriters: nat, aReaders: nat, bWriters: nat, bReaders: nat)
    ensures Reachable(Joined(aWriters, aReaders, bWriters, bReaders))
  {
    hide Reachable;
    var s0 := Opening(aWriters, aReaders, bWriters, bReaders);
    OpeningReachable(s0);
    ReachableStep(s0, Step(false, AReceive));
    var s1 := Next(s0, Step(false, AReceive));
    ReachableStep(s1, Step(false, AAccept));
    var s2 := Next(s1, Step(false, AAccept));
    ReachableStep(s2, Step(true, AReceive));
    var s3 := Next(s2, Step(true, AReceive));
    assert s3 == Joined(aWriters, aReaders, bWriters, bReaders);
  }

  // ---- Delivering what is on the way ----

  /** The second end has seen the end of file or will when its wire is empty. */
  predicate EofOnWay(s: State)
  {
    s.b.rx.eof || exists i :: 0 <= i < |s.ab| && s.ab[i].Eof?
  }

  lemma Received(e: End, m: Msg)
    requires Receive(e, m).end.fault == NoFault && !m.Close?
    ensures var r := Receive(e, m);
            && r.msgs == []
            && r.end.rx.readers == e.rx.readers && r.end.life.sentClose == e.life.sentClose
            && r.end.rx.refused == e.rx.refused
            && r.end.rx.discarded == e.rx.discarded + (if m.Data? && m.code > 1 && m.length > 0 then |m.bytes| else 0)
            && (e.rx.eof || m.Eof? ==> r.end.rx.eof)
            && SameWrites(e.tx, r.end.tx) && r.end.tx.sent == e.tx.sent && r.end.tx.forfeited == e.tx.forfeited
            && (!m.Open? && !m.Confirm? ==> r.end.life == e.life && r.end.tx == e.tx.(win := r.end.tx.win))
  {
  }

  /** Bytes on the way on codes above 1. */
  function OtherInFlight(wire: seq<Msg>): nat
  {
    if wire == [] then 0 else (if wire[0].Data? && wire[0].code > 1 then |wire[0].bytes| else 0) + OtherInFlight(wire[1..])
  }

  lemma DeliverNext(s: State)
    requires Inv(s) && !s.a.life.sentClose && s.ab != []
    ensures var r := Next(s, Step(false, AReceive));
            && Inv(r) && r.a == s.a && r.ab == s.ab[1..] && r.ba == s.ba
            && r.b.rx.readers == s.b.rx.readers && r.b.life.sentClose == s.b.life.sentClose && r.b.rx.refused == s.b.rx.refused
            && r.b.rx.discarded + OtherInFlight(r.ab) == s.b.rx.discarded + OtherInFlight(s.ab)
            && (EofOnWay(s) ==> EofOnWay(r))
  {
    hide Inv, Receive;
    StepKeepsInv(s, Step(false, AReceive));
    OtherMove(s, AReceive);
    NotClose(s);
    ReceiveWithoutFault(Swap(s));
    Received(s.b, s.ab[0]);
    var r := Next(s, Step(false, AReceive));
    assert r.ba == s.ba;
    if i :| 1 <= i < |s.ab| && s.ab[i].Eof? {
      assert r.ab[i - 1].Eof?;
    }
  }

  lemma NotClose(s: State)
    requires Inv(s) && !s.a.life.sentClose && s.ab != []
    ensures !s.ab[0].Close? && Sound(s.ab[0]) && Inv(Swap(s))
  {
    hide Conserved, Accounted, InOrder, OpenedOnce, EofLast, Quiet, PoolOk;
  }

  lemma {:induction false} DeliverAll(s: State, m: State) returns (r: State)
    requires Continues(s, m) && Inv(m) && !m.a.life.sentClose
    ensures Continues(s, r) && Inv(r) && r.a == m.a && r.ab == [] && r.ba == m.ba
    ensures r.b.rx.readers == m.b.rx.readers && r.b.life.sentClose == m.b.life.sentClose && r.b.rx.refused == m.b.rx.refused
    ensures r.b.rx.discarded == m.b.rx.discarded + OtherInFlight(m.ab)
    ensures EofOnWay(m) ==> r.b.rx.eof
    decreases |m.ab|
  {
    hide Continues, Inv, Next;
    if m.ab == [] {
      r := m;
    } else {
      DeliverNext(m);
      var step := Step(false, AReceive);
      ContinuesStep(s, m, step);
      r := DeliverAll(s, Next(m, step));
    }
  }

  lemma BothDecided(s: State)
    requires Inv(s) && s.ab == [] && s.a.life.decided
    ensures s.b.life.decided
  {
  }

  // ---- Readers ----

  /** A step of a reader of the second end. */
  lemma ReaderStep(s: State, m: State, act: Action) returns (r: State)
    requires Continues(s, m) && Inv(m) && Enabled(m.b, m.ab, act) && (act.AGrant? || act.ACredit? || act.ARead?)
    ensures r == Next(m, Step(false, act)) && Continues(s, r) && Inv(r) && r.a == m.a && r.ab == m.ab
    ensures r.b == Act(m.b, m.ab, act).end && r.b.life == m.b.life && r.b.rx.discarded == m.b.rx.discarded
    ensures !m.b.life.sentClose ==> r.b.rx.refused == m.b.rx.refused
  {
    r := GoOn(s, m, Step(false, act));
    hide Continues, Inv;
    OtherMove(m, act);
  }

  /** One reader can finish and come round. */
  lemma FinishReader(s: State, m: State, t: nat) returns (r: State)
    requires Continues(s, m) && Inv(m) && t < |m.b.rx.readers|
    ensures Continues(s, r) && Inv(r) && r.a == m.a && r.ab == m.ab && r.b.life == m.b.life
    ensures r.b.rx.readers == m.b.rx.readers[t := NoRead] && r.b.rx.pending == m.b.rx.pending && r.b.rx.eof == m.b.rx.eof
    ensures r.b.rx.discarded == m.b.rx.discarded && (!m.b.life.sentClose ==> r.b.rx.refused == m.b.rx.refused)
  {
    hide Continues, Inv;
    r := m;
    if r.b.rx.readers[t].Consumed? {
      r := ReaderStep(s, r, AGrant(t));
    }
    if r.b.rx.readers[t].Granted? {
      r := ReaderStep(s, r, ACredit(t));
    }
    assert r.b.rx.readers == m.b.rx.readers[t := NoRead];
  }

  lemma ReadWhole(e: End, t: nat, code: nat)
    requires CanRead(e, t, code, |e.rx.pending.Get(code)|)
    ensures var r := Read(e, t, code, |e.rx.pending.Get(code)|);
            && r.life == e.life && r.rx.pending.Get(code) == [] && r.rx.pending.Get(1 - code) == e.rx.pending.Get(1 - code)
            && r.rx.eof == e.rx.eof && |r.rx.readers| == |e.rx.readers| && r.rx.readers == e.rx.readers[t := r.rx.readers[t]]
  {
  }

  /** One reader can empty a stream. */
  lemma EmptyStream(s: State, m: State, code: nat) returns (r: State)
    requires Continues(s, m) && Inv(m) && m.b.life.decided && |m.b.rx.readers| > 0 && code <= 1
    ensures Continues(s, r) && Inv(r) && r.a == m.a && r.ab == m.ab && r.b.life == m.b.life
    ensures |r.b.rx.readers| == |m.b.rx.readers| && r.b.rx.readers == m.b.rx.readers[0 := r.b.rx.readers[0]]
    ensures r.b.rx.eof == m.b.rx.eof
    ensures r.b.rx.pending.Get(code) == [] && r.b.rx.pending.Get(1 - code) == m.b.rx.pending.Get(1 - code)
    ensures r.b.rx.discarded == m.b.rx.discarded && (!m.b.life.sentClose ==> r.b.rx.refused == m.b.rx.refused)
  {
    hide Continues, Inv, Read, Next;
    r := m;
    if m.b.rx.pending.Get(code) != [] {
      r := FinishReader(s, m, 0);
      ReadWhole(r.b, 0, code);
      r := ReaderStep(s, r, ARead(0, code, |r.b.rx.pending.Get(code)|));
    }
  }

  /** The first `k` readers can come round. */
  lemma {:induction false} FinishReaders(s: State, m: State, k: nat) returns (r: State)
    requires Continues(s, m) && Inv(m) && k <= |m.b.rx.readers| && !m.b.life.sentClose
    ensures Continues(s, r) && Inv(r) && r.a == m.a && r.ab == m.ab && r.b.life == m.b.life
    ensures |r.b.rx.readers| == |m.b.rx.readers| && forall i :: 0 <= i < k ==> r.b.rx.readers[i].NoRead?
    ensures r.b.rx.pending == m.b.rx.pending && r.b.rx.eof == m.b.rx.eof
    ensures r.b.rx.discarded == m.b.rx.discarded && r.b.rx.refused == m.b.rx.refused
  {
    hide Continues, Inv;
    if k == 0 {
      r := m;
    } else {
      r := FinishReaders(s, m, k - 1);
      r := FinishReader(s, r, k - 1);
    }
  }

  // ---- Credit coming back ----

  lemma NotOpening(s: State)
    requires Inv(s) && !s.b.life.sentClose && s.a.life.decided && s.ba != []
    ensures !s.ba[0].Close? && !s.ba[0].Open? && !s.ba[0].Confirm?
  {
    hide Conserved, Accounted, InOrder, Limits, EofLast, Quiet, PoolOk;
  }

  lemma CollectNext(s: State)
    requires Inv(s) && !s.b.life.sentClose && s.a.life.decided && s.ba != []
    ensures var r := Next(s, Step(true, AReceive));
            && Inv(r) && r.b == s.b && r.ab == s.ab && r.ba == s.ba[1..]
            && r.a.life == s.a.life && r.a.tx == s.a.tx.(win := r.a.tx.win)
  {
    hide Inv, Receive;
    StepKeepsInv(s, Step(true, AReceive));
    NotOpening(s);
    ReceiveWithoutFault(s);
    Received(s.a, s.ba[0]);
    assert Next(s, Step(true, AReceive)).ab == s.ab;
  }

  lemma {:induction false} CollectAll(s: State, m: State) returns (r: State)
    requires Continues(s, m) && Inv(m) && !m.b.life.sentClose && m.a.life.decided
    ensures Continues(s, r) && Inv(r) && r.b == m.b && r.ab == m.ab && r.ba == []
    ensures r.a.life == m.a.life && r.a.tx == m.a.tx.(win := r.a.tx.win)
    decreases |m.ba|
  {
    hide Continues, Inv, Next;
    if m.ba == [] {
      r := m;
    } else {
      var step := Step(true, AReceive);
      CollectNext(m);
      ContinuesStep(s, m, step);
      r := CollectAll(s, Next(m, step));
    }
  }

  /** With nothing on the wires, nothing waiting and no reader busy, the rest of the window is at hand. */
  lemma AllAtHand(s: State)
    requires Inv(s) && s.ab == [] && s.ba == [] && s.a.life.decided
    requires s.b.rx.pending == NO_STREAMS && forall i :: 0 <= i < |s.b.rx.readers| ==> s.b.rx.readers[i].NoRead?
    ensures s.a.tx.win + Held(s.a.tx.writers) + s.a.tx.forfeited + s.b.rx.discarded + s.b.rx.refused == CHANNEL_WINDOW_SIZE
  {
    BothDecided(s);
    NothingRead(s.b.rx.readers);
    hide Accounted, InOrder, Limits, ClosedOnce, EofLast, Quiet, PoolOk;
  }

  /** While neither end has closed and somebody reads, all window that is not lost can come back. */
  lemma Refill(s: State, m: State) returns (r: State)
    requires Continues(s, m) && Inv(m) && m.a.life.decided && !m.a.life.sentClose && !m.b.life.sentClose
    requires |m.b.rx.readers| > 0
    ensures Continues(s, r) && Inv(r) && r.a.life == m.a.life && r.a.tx == m.a.tx.(win := r.a.tx.win)
    ensures r.b.rx.pending == NO_STREAMS && (EofOnWay(m) ==> r.b.rx.eof)
    ensures |r.b.rx.readers| == |m.b.rx.readers| && !r.b.life.sentClose && r.ab == []
    ensures r.a.tx.win + Held(m.a.tx.writers) + m.a.tx.forfeited
            + m.b.rx.discarded + OtherInFlight(m.ab) + m.b.rx.refused == CHANNEL_WINDOW_SIZE
  {
    hide Continues, Inv, EofOnWay, Held, OtherInFlight;
    r := DeliverAll(s, m);
    BothDecided(r);
    r := EmptyStream(s, r, 0);
    r := EmptyStream(s, r, 1);
    r := FinishReaders(s, r, |r.b.rx.readers|);
    r := CollectAll(s, r);
    AllAtHand(r);
  }

  // ---- Writers ----

  /** Writer `t` has its packet filled in, and nothing else has changed. */
  predicate FilledFor(m: State, r: State, t: nat)
  {
    && r.b == m.b && r.ab == m.ab && r.ba == m.ba && r.a.life == m.a.life
    && r.a.tx.sent == m.a.tx.sent && r.a.tx.win == m.a.tx.win && r.a.tx.forfeited == m.a.tx.forfeited
    && r.a.tx.closed == m.a.tx.closed && r.a.tx.maxRemote == m.a.tx.maxRemote
    && t < |m.a.tx.writers| && m.a.tx.writers[t].Holding? && CanSend(r.a, t)
    && r.a.tx.writers == m.a.tx.writers[t := r.a.tx.writers[t]]
    && r.a.tx.writers[t].code == m.a.tx.writers[t].code && r.a.tx.writers[t].todo == m.a.tx.writers[t].todo
    && r.a.tx.writers[t].space == m.a.tx.writers[t].space
  }

  lemma HolderFits(s: State, t: nat)
    requires Inv(s) && t < |s.a.tx.writers| && s.a.tx.writers[t].Holding?
    ensures s.a.tx.writers[t].space <= |s.a.tx.writers[t].todo| && s.a.life.decided
    ensures s.a.tx.writers[t].filled ==> CanSend(s.a, t)
  {
    hide Conserved, Accounted, InOrder, OpenedOnce, ClosedOnce, EofLast;
    assert WriterOk(s.a.tx.maxRemote, s.a.tx.writers[t]) && PacketOk(s.a.tx.pool.arrays, s.a.tx.writers[t]);
  }

  /** What a filled packet will say. */
  lemma HolderSeals(s: State, t: nat)
    requires Inv(s) && CanSend(s.a, t)
    ensures PacketOk(s.a.tx.pool.arrays, s.a.tx.writers[t])
    ensures var w := s.a.tx.writers[t];
            Sealed(s.a.tx.pool.arrays[w.buf.value], w.space) == Data(w.code, w.space, w.todo[..w.space])
  {
    hide Conserved, Accounted, InOrder, Limits, OpenedOnce, ClosedOnce, EofLast, Quiet;
    SealedIsOwn(s.a.tx, t);
  }

  lemma FillPacket(s: State, m: State, t: nat) returns (r: State)
    requires Continues(s, m) && Inv(m) && t < |m.a.tx.writers| && m.a.tx.writers[t].Holding?
    ensures Continues(s, r) && Inv(r) && FilledFor(m, r, t)
  {
    hide Continues, Inv, FillTx, CanSend;
    HolderFits(m, t);
    r := m;
    if !m.a.tx.writers[t].filled {
      r := GoOn(s, m, Step(true, AFill(t)));
      HolderFits(r, t);
    }
  }

  // ---- What a decided end knows ----

  /** It has the peer's packet size, its window is closed exactly when the peer's close has come, so that no Write waits
      after it, and a Write holds nothing only if a multiple of 2^32 bytes is left to write. */
  predicate Settled(e: End)
  {
    && ((if e.life.outbound then e.life.decided else e.life.present) ==> e.tx.maxRemote == CHANNEL_MAX_PACKET)
    && (e.tx.closed <==> e.life.removed) && (e.tx.closed ==> e.life.sentClose)
    && (forall i :: 0 <= i < |e.tx.writers| && e.tx.writers[i].Holding? && e.tx.writers[i].space == 0 ==>
          |e.tx.writers[i].todo| % U32_MODULUS == 0)
  }

  lemma MoveSettles(s: State, act: Action)
    requires Inv(s) && Enabled(s.a, s.ba, act) && Settled(s.a)
    ensures Settled(MoveA(s, act).a)
  {
    hide Conserved, Accounted, InOrder, Limits, ClosedOnce, EofLast, PoolOk, FillTx, Sealed, WindowAdd;
    if act.AReceive? {
      ReceiveWithoutFault(s);
    }
  }

  lemma {:induction false} RunSettles(s: State, steps: seq<Step>)
    requires Inv(s) && IsRun(s, steps) && Settled(s.a) && Settled(s.b)
    ensures Settled(After(s, steps).a) && Settled(After(s, steps).b)
    decreases |steps|
  {
    hide Directed, Enabled, MoveA, Settled;
    if steps != [] {
      StepKeepsInv(s, steps[0]);
      if steps[0].byA {
        MoveSettles(s, steps[0].action);
        OtherEnd(s, steps[0].action);
      } else {
        MoveSettles(Swap(s), steps[0].action);
        OtherEnd(Swap(s), steps[0].action);
      }
      RunSettles(Next(s, steps[0]), steps[1..]);
    }
  }

  lemma OtherEnd(s: State, act: Action)
    requires Enabled(s.a, s.ba, act)
    ensures MoveA(s, act).b == s.b
  {
    hide Act, Enabled;
  }

  lemma ReachableSettled(s: State)
    requires Reachable(s)
    ensures Settled(s.a) && Settled(s.b)
  {
    hide Inv, IsRun, After;
    var first: State, steps: seq<Step> :| IsOpening(first) && Leads(first, steps, s);
    OpeningHolds(|first.a.tx.writers|, |first.a.rx.readers|, |first.b.tx.writers|, |first.b.rx.readers|);
    RunSettles(first, steps);
  }
}
