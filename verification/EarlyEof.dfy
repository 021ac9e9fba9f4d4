/** An end of file that comes too early: CloseWrite does not wait for a Write in progress. */
module EarlyEof {
  import opened Bytes
  import opened Endpoint
  import opened FlowControl
  import opened FlowRuns
  import opened Stalled

  /** The standard Write of goroutine `t` will be able to send a byte: it holds window, or there is some, or the peer is open
      and not all of it is lost. A length that is a multiple of 2^32 asks for no window. */
  predicate CanYetSend(s: State, t: nat)
    requires t < |s.a.tx.writers|
  {
    var w := s.a.tx.writers[t];
    || HoldsStandard(w)
    || (&& w.Ready? && |w.todo| % U32_MODULUS > 0 && w.code <= 1
        && (s.a.tx.win > 0 || (!s.b.life.sentClose && Lost(s) < CHANNEL_WINDOW_SIZE)))
  }

  /** The reader can be told that `code` has ended, with bytes of writer `t` still to be sent on it. */
  ghost predicate EndsBefore(m: State, t: nat, code: nat)
  {
    && ReadsEof(m.b, code) && CanStep(m, Step(true, ASend(t, false)))
    && m.b.rx.got.Get(code) != Next(m, Step(true, ASend(t, false))).a.tx.sent.Get(code)
  }

  /** CloseWrite puts the end of file on its way and leaves the Writes alone. */
  lemma ClosingAnnounces(s: State, t: nat)
    requires Inv(s) && !s.a.life.sentClose
    requires t < |s.a.tx.writers| && (s.a.tx.writers[t].Holding? || s.a.tx.writers[t].Ready?)
    ensures CanStep(s, Step(true, ACloseWrite)) && s.a.life.decided
    ensures var r := Next(s, Step(true, ACloseWrite));
            && Inv(r) && EofOnWay(r) && r.a.tx == s.a.tx && r.b == s.b && Lost(r) == Lost(s)
            && r.a.life.decided && !r.a.life.sentClose
  {
    assert Quiet(s.a) && s.a.life.decided;
    StepKeepsInv(s, Step(true, ACloseWrite));
    var r := Next(s, Step(true, ACloseWrite));
    assert r.ab == s.ab + [Eof] && r.ab[|s.ab|].Eof?;
    OtherConcat(s.ab, [Eof]);
    OtherOne(Eof);
  }

  // ---- Getting window for a Write that has none ----

  /** The other standard Writes can send what they hold. */
  lemma {:induction false} FreeStandard(s: State, m: State, t: nat) returns (r: State)
    requires Continues(s, m) && Inv(m) && !m.a.life.sentClose && t < |m.a.tx.writers| && m.a.tx.writers[t].Ready?
    ensures Continues(s, r) && Inv(r) && r.a.life == m.a.life && r.b == m.b && Lost(r) == Lost(m)
    ensures HeldOn(r.a.tx.writers, true) == 0 && t < |r.a.tx.writers| && r.a.tx.writers[t] == m.a.tx.writers[t]
    ensures r.a.tx.maxRemote == m.a.tx.maxRemote && r.a.tx.closed == m.a.tx.closed
    ensures EofOnWay(m) ==> EofOnWay(r)
    decreases HeldOn(m.a.tx.writers, true)
  {
    hide Continues, Inv, HeldOn, Lost, EofOnWay;
    r := m;
    if HeldOn(m.a.tx.writers, true) > 0 {
      var u := HeldBySome(m.a.tx.writers);
      r := SendHeld(s, m, u);
      r := FreeStandard(s, r, t);
    }
  }

  /** What the Write will find when it reserves. */
  lemma TakeWindow(s: State, m: State, t: nat) returns (r: State)
    requires Continues(s, m) && Inv(m) && t < |m.a.tx.writers| && m.a.tx.writers[t].Ready?
    requires |m.a.tx.writers[t].todo| % U32_MODULUS > 0 && m.a.tx.win > 0
    requires !m.a.tx.closed && m.a.tx.maxRemote == CHANNEL_MAX_PACKET
    ensures Continues(s, r) && Inv(r) && r.a.life == m.a.life && r.b == m.b && r.ab == m.ab
    ensures t < |r.a.tx.writers| && r.a.tx.writers[t].Holding? && r.a.tx.writers[t].space > 0
    ensures r.a.tx.writers[t].code == m.a.tx.writers[t].code
  {
    hide Continues, Inv;
    r := GoOn(s, m, Step(true, AReserve(t)));
  }

  lemma GetWindow(s: State, m: State, t: nat) returns (r: State)
    requires Continues(s, m) && Inv(m) && Settled(m.a) && m.a.life.decided && !m.a.life.sentClose && EofOnWay(m)
    requires |m.b.rx.readers| > 0 && t < |m.a.tx.writers| && CanYetSend(m, t)
    ensures Continues(s, r) && Inv(r) && r.a.life == m.a.life && EofOnWay(r) && |r.b.rx.readers| > 0
    ensures t < |r.a.tx.writers| && r.a.tx.writers[t].Holding? && r.a.tx.writers[t].space > 0
    ensures r.a.tx.writers[t].code == m.a.tx.writers[t].code
  {
    DecidedSettled(m);
    hide Continues, Inv, HeldOn, OtherInFlight, Held;
    r := m;
    if m.a.tx.writers[t].Ready? {
      if m.a.tx.win == 0 {
        r := FreeStandard(s, m, t);
        HeldSplit(r.a.tx.writers);
        r := Refill(s, r);
      }
      r := TakeWindow(s, r, t);
    }
  }

  // ---- The end of file overtakes the Write ----

  lemma SentAfterEof(m: State, t: nat)
    requires Inv(m) && m.ab == [] && !m.a.life.sentClose && m.b.rx.eof && CanSend(m.a, t)
    requires m.a.tx.writers[t].space > 0 && m.a.tx.writers[t].code <= 1 && m.b.rx.pending.Get(m.a.tx.writers[t].code) == []
    ensures EndsBefore(m, t, m.a.tx.writers[t].code)
  {
    hide Conserved, Accounted, Limits, OpenedOnce, ClosedOnce, EofLast, Quiet, PoolOk, Sealed;
    var w := m.a.tx.writers[t];
    assert m.b.rx.got.Get(w.code) + m.b.rx.pending.Get(w.code) + StreamInFlight(m.ab, w.code) == m.a.tx.sent.Get(w.code);
    assert |Next(m, Step(true, ASend(t, false))).a.tx.sent.Get(w.code)| == |m.a.tx.sent.Get(w.code)| + w.space;
  }

  lemma Overtake(s: State, m: State, t: nat) returns (r: State)
    requires Continues(s, m) && Inv(m) && EofOnWay(m) && m.a.life.decided && !m.a.life.sentClose && |m.b.rx.readers| > 0
    requires t < |m.a.tx.writers| && HoldsStandard(m.a.tx.writers[t])
    ensures Continues(s, r) && EndsBefore(r, t, m.a.tx.writers[t].code)
  {
    hide Continues, Inv, EndsBefore, CanSend, EofOnWay;
    r := FillPacket(s, m, t);
    EofStays(m, r);
    r := DeliverAll(s, r);
    BothDecided(r);
    r := EmptyStream(s, r, m.a.tx.writers[t].code);
    SentAfterEof(r, t);
  }

  lemma EofStays(m: State, r: State)
    requires EofOnWay(m) && r.b == m.b && r.ab == m.ab
    ensures EofOnWay(r)
  {
  }

  /** Whenever CloseWrite is called while a standard Write has bytes that it will be able to send, the reader can be
      told of the end of file while bytes of that Write are still to come. */
  lemma OverlapCanEndEarly(s: State, t: nat)
    requires Reachable(s) && !s.a.life.sentClose && |s.b.rx.readers| > 0
    requires t < |s.a.tx.writers| && CanYetSend(s, t)
    ensures CanStep(s, Step(true, ACloseWrite))
    ensures exists m :: Continues(Next(s, Step(true, ACloseWrite)), m) && EndsBefore(m, t, s.a.tx.writers[t].code)
  {
    hide Reachable, Continues, Inv, Next, EofOnWay, Lost, EndsBefore, Enabled;
    ReachableInv(s);
    ClosingAnnounces(s, t);
    var first := Next(s, Step(true, ACloseWrite));
    ReachableStep(s, Step(true, ACloseWrite));
    ReachableSettled(first);
    ContinuesHere(first);
    var m := GetWindow(first, first, t);
    m := Overtake(first, m, t);
  }

  /** It does happen: one Write of one byte, and a CloseWrite before it has sent it. */
  lemma OverlappedEofIsEarly() returns (m: State)
    ensures Reachable(m) && m.a.life.overlapped && EndsBefore(m, 0, 0)
  {
    hide Reachable, Continues, EndsBefore;
    JoinedReachable(1, 0, 0, 1);
    var begin := Step(true, AStartWrite(0, 0, [7]));
    ReachableStep(Joined(1, 0, 0, 1), begin);
    var s := Next(Joined(1, 0, 0, 1), begin);
    OverlapCanEndEarly(s, 0);
    ReachableStep(s, Step(true, ACloseWrite));
    m :| Continues(Next(s, Step(true, ACloseWrite)), m) && EndsBefore(m, 0, 0);
    ContinuesReachable(Next(s, Step(true, ACloseWrite)), m);
    MustOverlap(m);
  }

  lemma MustOverlap(m: State)
    requires Reachable(m) && EndsBefore(m, 0, 0)
    ensures m.a.life.overlapped
  {
    hide Reachable, Enabled, Next;
    var steps := [Step(true, ASend(0, false))];
    assert steps[1..] == [] && IsRun(Next(m, steps[0]), []);
    EofIsComplete(m, 0, steps);
  }
}
