/** What the other results rest on: Writes of one code that overlap share the packet kept for that code, so one of them
    may overwrite what the other is about to send. */
module SharedPackets {
  import opened Bytes
  import opened Options
  import opened Endpoint
  import opened FlowControl
  import opened FlowRuns

  // ---- Runs in which Writes may overlap ----

  ghost predicate IsAnyRun(s: State, steps: seq<Step>)
    decreases |steps|
  {
    steps == [] || (Possible(s, steps[0]) && IsAnyRun(Next(s, steps[0]), steps[1..]))
  }

  ghost function AnyAfter(s: State, steps: seq<Step>): State
    requires IsAnyRun(s, steps)
    decreases |steps|
  {
    if steps == [] then s else AnyAfter(Next(s, steps[0]), steps[1..])
  }

  ghost predicate AnyLeads(first: State, steps: seq<Step>, last: State)
  {
    IsAnyRun(first, steps) && AnyAfter(first, steps) == last
  }

  ghost predicate CanBecome(s: State, m: State)
  {
    exists steps: seq<Step> :: AnyLeads(s, steps, m)
  }

  lemma {:induction false} AnyExtend(s: State, steps: seq<Step>, step: Step)
    requires IsAnyRun(s, steps) && Possible(AnyAfter(s, steps), step)
    ensures IsAnyRun(s, steps + [step]) && AnyAfter(s, steps + [step]) == Next(AnyAfter(s, steps), step)
    decreases |steps|
  {
    hide Enabled, Next;
    if steps == [] {
      assert steps + [step] == [step] && [step][1..] == [];
      assert IsAnyRun(Next(s, step), []);
    } else {
      assert (steps + [step])[1..] == steps[1..] + [step];
      AnyExtend(Next(s, steps[0]), steps[1..], step);
    }
  }

  lemma Onward(s: State, m: State, step: Step) returns (r: State)
    requires CanBecome(s, m) && Possible(m, step)
    ensures r == Next(m, step) && CanBecome(s, r)
  {
    hide IsAnyRun, AnyAfter, Enabled, Next;
    var steps: seq<Step> :| AnyLeads(s, steps, m);
    AnyExtend(s, steps, step);
    r := Next(m, step);
    assert AnyLeads(s, steps + [step], r);
  }

  lemma {:induction false} RunIsAnyRun(s: State, steps: seq<Step>)
    requires IsRun(s, steps)
    ensures IsAnyRun(s, steps) && AnyAfter(s, steps) == After(s, steps)
    decreases |steps|
  {
    hide Enabled, Orderly, Next;
    if steps != [] {
      RunIsAnyRun(Next(s, steps[0]), steps[1..]);
    }
  }

  lemma ContinuesCanBecome(s: State, m: State)
    requires Continues(s, m)
    ensures CanBecome(s, m)
  {
    hide IsRun, After, IsAnyRun, AnyAfter;
    var steps: seq<Step> :| Leads(s, steps, m);
    RunIsAnyRun(s, steps);
    assert AnyLeads(s, steps, m);
  }

  // ---- Two Writes that share a packet ----

  /** Goroutines `t` and `u` are free, and a packet with room for two bytes is kept for `code`. */
  predicate Poised(e: End, t: nat, u: nat, code: nat)
  {
    && e.life.decided && !e.life.sentEof && !e.life.sentClose
    && t < |e.tx.writers| && u < |e.tx.writers| && t != u && e.tx.writers[t].NoWrite? && e.tx.writers[u].NoWrite?
    && !e.tx.closed && e.tx.maxRemote == CHANNEL_MAX_PACKET && e.tx.win >= 3
    && code in e.tx.pool.kept && var k := e.tx.pool.kept[code];
       k < |e.tx.pool.arrays| && e.tx.pool.arrays[k].code == code && |e.tx.pool.arrays[k].data| >= 2
  }

  /** Both have begun, reserved and filled in their packets, `u` last. */
  predicate Clashing(e: End, t: nat, u: nat, code: nat, p: seq<byte>, q: seq<byte>)
  {
    && e.life.decided && !e.life.sentClose && |p| == 1 && 1 <= |q| <= 2
    && t < |e.tx.writers| && u < |e.tx.writers| && t != u
    && code in e.tx.pool.kept && var k := e.tx.pool.kept[code];
       && k < |e.tx.pool.arrays|
       && e.tx.writers[t] == Holding(code, p, 1, Some(k), true) && e.tx.writers[u] == Holding(code, q, |q|, Some(k), true)
       && var a := e.tx.pool.arrays[k];
          a.code == code && a.length == |q| && !a.spoiled && |a.data| >= |q| && a.data[..|q|] == q
  }

  lemma BeginBoth(s: State, m: State, t: nat, u: nat, code: nat, p: seq<byte>, q: seq<byte>) returns (r: State)
    requires CanBecome(s, m) && Poised(m.a, t, u, code) && |p| == 1 && 1 <= |q| <= 2
    ensures CanBecome(s, r) && r == m.(a := r.a)
    ensures var k := Some(m.a.tx.pool.kept[code]);
            r.a == m.a.(tx := m.a.tx.(writers := m.a.tx.writers[t := Ready(code, p, k)][u := Ready(code, q, k)]))
  {
    hide CanBecome;
    r := Onward(s, m, Step(true, AStartWrite(t, code, p)));
    r := Onward(s, r, Step(true, AStartWrite(u, code, q)));
  }

  lemma ReserveBoth(s: State, m: State, t: nat, u: nat, code: nat, p: seq<byte>, q: seq<byte>) returns (r: State)
    requires CanBecome(s, m) && Poised(m.a, t, u, code) && |p| == 1 && 1 <= |q| <= 2
    ensures CanBecome(s, r) && r == m.(a := r.a)
    ensures var k := Some(m.a.tx.pool.kept[code]);
            r.a == m.a.(tx := m.a.tx.(win := m.a.tx.win - 1 - |q|,
                                      writers := m.a.tx.writers[t := Holding(code, p, 1, k, false)][u := Holding(code, q, |q|, k, false)]))
  {
    hide CanBecome;
    r := BeginBoth(s, m, t, u, code, p, q);
    r := Onward(s, r, Step(true, AReserve(t)));
    r := Onward(s, r, Step(true, AReserve(u)));
    assert r.a.tx.writers == m.a.tx.writers[t := r.a.tx.writers[t]][u := r.a.tx.writers[u]];
  }

  lemma Clash(s: State, m: State, t: nat, u: nat, code: nat, p: seq<byte>, q: seq<byte>) returns (r: State)
    requires CanBecome(s, m) && Poised(m.a, t, u, code) && |p| == 1 && 1 <= |q| <= 2
    ensures CanBecome(s, r) && r == m.(a := r.a) && Clashing(r.a, t, u, code, p, q) && r.a.tx.sent == m.a.tx.sent
  {
    hide CanBecome;
    r := ReserveBoth(s, m, t, u, code, p, q);
    r := Onward(s, r, Step(true, AFill(t)));
    r := Onward(s, r, Step(true, AFill(u)));
  }

  /** The receiving end is up and has room for what the sender may send. */
  lemma ReceiverReady(m: State)
    requires Inv(m) && m.ab == [] && m.a.life.decided && !m.a.life.sentClose
    ensures m.b.life.present && !m.b.life.removed && m.b.rx.maxIncoming == CHANNEL_MAX_PACKET && m.b.fault == NoFault
    ensures m.a.tx.win <= m.b.rx.myWindow
    ensures forall code :: 0 <= code <= 1 ==> m.b.rx.got.Get(code) + m.b.rx.pending.Get(code) == m.a.tx.sent.Get(code)
  {
    BothDecided(m);
    hide EofLast, Quiet, PoolOk;
    assert forall code {:trigger StreamInFlight(m.ab, code)} :: StreamInFlight(m.ab, code) == [];
    forall code | 0 <= code <= 1
      ensures m.b.rx.got.Get(code) + m.b.rx.pending.Get(code) == m.a.tx.sent.Get(code)
    {
      var all := m.b.rx.got.Get(code) + m.b.rx.pending.Get(code);
      assert all + StreamInFlight(m.ab, code) == m.a.tx.sent.Get(code) && all + [] == all;
    }
  }

  lemma Delivered(s: State) returns (m: State)
    requires Reachable(s) && s.a.life.decided && !s.a.life.sentClose
    ensures CanBecome(s, m) && Inv(m) && m.a == s.a && m.ab == []
  {
    ReachableInv(s);
    hide Reachable, Continues, CanBecome, Inv;
    ContinuesHere(s);
    m := DeliverAll(s, s);
    ContinuesCanBecome(s, m);
  }

  /** Lengths one and two: the shorter Write sends its slice of the packet with the longer one's length, and the
      peer's mux loop gives up. */
  lemma OverlapCanFault(s: State, t: nat, u: nat, code: nat)
    requires Reachable(s) && Poised(s.a, t, u, code)
    ensures exists r :: CanBecome(s, r) && r.b.fault == WrongPacketLength
  {
    hide Reachable, CanBecome, Inv;
    var m := Delivered(s);
    ReceiverReady(m);
    var r := Clash(s, m, t, u, code, [7], [8, 9]);
    r := Onward(s, r, Step(true, ASend(t, false)));
    assert r.ab == [Data(code, 2, r.ab[0].bytes)] && |r.ab[0].bytes| == 1;
    r := Onward(s, r, Step(false, AReceive));
  }

  lemma SendBoth(s: State, m: State, t: nat, u: nat, code: nat, x: byte, y: byte) returns (r: State)
    requires CanBecome(s, m) && Clashing(m.a, t, u, code, [x], [y]) && m.ab == [] && code <= 1
    ensures CanBecome(s, r) && r.b == m.b && r.ab == [Data(code, 1, [y]), Data(code, 1, [y])]
    ensures r.a.tx.sent.Get(code) == m.a.tx.sent.Get(code) + [x, y]
  {
    hide CanBecome;
    var data := m.a.tx.pool.arrays[m.a.tx.pool.kept[code]].data;
    assert [x][..1] == [x] && [y][..1] == [y] && data[..1] == [y];
    r := Onward(s, m, Step(true, ASend(t, false)));
    r := Onward(s, r, Step(true, ASend(u, false)));
    assert m.a.tx.sent.Get(code) + [x] + [y] == m.a.tx.sent.Get(code) + [x, y];
  }

  lemma TakeTwo(e: End, code: nat, y: byte)
    requires code <= 1 && e.life.present && !e.life.removed && e.fault == NoFault
    requires e.rx.maxIncoming == CHANNEL_MAX_PACKET && e.rx.myWindow >= 2
    ensures var e1 := Receive(e, Data(code, 1, [y])).end;
            var e2 := Receive(e1, Data(code, 1, [y])).end;
            && e2.fault == NoFault && e2.rx.got == e.rx.got
            && e2.rx.pending.Get(code) == e.rx.pending.Get(code) + [y, y]
  {
    assert e.rx.pending.Get(code) + [y] + [y] == e.rx.pending.Get(code) + [y, y];
  }

  /** Equal lengths: nobody notices, but one Write's byte arrives twice and the other's never. */
  lemma OverlapCanCorrupt(s: State, t: nat, u: nat, code: nat, x: byte, y: byte)
    requires Reachable(s) && Poised(s.a, t, u, code) && code <= 1
    ensures exists r :: && CanBecome(s, r) && r.b.fault == NoFault && r.ab == []
                        && r.a.tx.sent.Get(code) == s.a.tx.sent.Get(code) + [x, y]
                        && r.b.rx.got.Get(code) + r.b.rx.pending.Get(code) == s.a.tx.sent.Get(code) + [y, y]
  {
    hide Reachable, CanBecome, Inv, Receive;
    var m := Delivered(s);
    ReceiverReady(m);
    var r := Clash(s, m, t, u, code, [x], [y]);
    r := SendBoth(s, r, t, u, code, x, y);
    TakeTwo(r.b, code, y);
    var r1 := Onward(s, r, Step(false, AReceive));
    assert r1.ab == [Data(code, 1, [y])];
    var r2 := Onward(s, r1, Step(false, AReceive));
    assert r2.ab == [];
    assert m.b.rx.got.Get(code) + (m.b.rx.pending.Get(code) + [y, y]) == s.a.tx.sent.Get(code) + [y, y];
  }

  /** A transport that encrypts in place: what the second Write sends is what the first one's encryption left, and the
      peer cannot read it. */
  lemma OverlapCanGarble(s: State, t: nat, u: nat, code: nat)
    requires Reachable(s) && Poised(s.a, t, u, code)
    ensures exists r :: CanBecome(s, r) && r.b.fault == UnreadablePacket
  {
    hide Reachable, CanBecome, Inv;
    var m := Delivered(s);
    ReceiverReady(m);
    var r := Clash(s, m, t, u, code, [7], [8]);
    r := SendSpoiled(s, r, t, u, code);
    r := Onward(s, r, Step(false, AReceive));
    assert r.ab == [Garbled];
    r := Onward(s, r, Step(false, AReceive));
  }

  lemma SendSpoiled(s: State, m: State, t: nat, u: nat, code: nat) returns (r: State)
    requires CanBecome(s, m) && Clashing(m.a, t, u, code, [7], [8]) && m.ab == []
    ensures CanBecome(s, r) && r.b == m.b && |r.ab| == 2 && r.ab[0].Data? && r.ab[0].length == |r.ab[0].bytes| == 1
    ensures r.ab[1] == Garbled
  {
    hide CanBecome;
    r := Onward(s, m, Step(true, ASend(t, true)));
    r := Onward(s, r, Step(true, ASend(u, false)));
  }

  // ---- Such states are common: one Write of two bytes has returned ----

  lemma WriteFilled() returns (s: State)
    ensures Reachable(s)
    ensures s.a == Fresh(true, 2, 0).(tx := Sender(CHANNEL_WINDOW_SIZE - 2, false, CHANNEL_MAX_PACKET,
                                                   [Holding(0, [0, 0], 2, Some(0), true), NoWrite],
                                                   Pool([Packet(0, 2, [0, 0], false)], map[]), NO_STREAMS, 0))
  {
    hide Reachable;
    s := Joined(2, 0, 0, 1);
    JoinedReachable(2, 0, 0, 1);
    ReachableStep(s, Step(true, AStartWrite(0, 0, [0, 0])));
    s := Next(s, Step(true, AStartWrite(0, 0, [0, 0])));
    ReachableStep(s, Step(true, AReserve(0)));
    s := Next(s, Step(true, AReserve(0)));
    ReachableStep(s, Step(true, AFill(0)));
    s := Next(s, Step(true, AFill(0)));
    assert [0, 0][..2] == [0, 0];
  }

  lemma OneWriteDone() returns (s: State)
    ensures Reachable(s) && Poised(s.a, 0, 1, 0)
  {
    hide Reachable;
    s := WriteFilled();
    ReachableStep(s, Step(true, ASend(0, false)));
    s := Next(s, Step(true, ASend(0, false)));
    assert s.a.tx.writers[0] == Ending(0, Some(0));
    ReachableStep(s, Step(true, AEndWrite(0)));
    s := Next(s, Step(true, AEndWrite(0)));
  }
}
