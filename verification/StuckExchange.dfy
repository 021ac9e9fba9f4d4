/** A run of two sides that gets stuck in its second key exchange because one layer above stops reading. */
module StuckExchange {
  import opened Handshake
  import opened Options
  import opened Rekey

  const FIRST := Transcript(0, 0, 0, 0)
  const FIRST_KEY := Keyed(FIRST, FIRST)
  const INIT := Record(KexInit(0), 0, Plain)
  const KEX := Record(KexData(0), 1, Plain)
  const SWITCH := Record(NewKeys, 2, Plain)
  const NO_APPS := Apps([], [], [], [], [])

  function InClear(log: seq<Record>, count: nat): Transport
  {
    Transport(log, Direction(|log|, Plain, []), count, Direction(count, Plain, []))
  }

  /** A side in its first exchange, before keys are prepared. */
  function Talker(isClient: bool, log: seq<Record>, count: nat, request: bool, mine: Option<nat>, theirs: Option<nat>): Side
  {
    Side(isClient, InClear(log, count),
         Loops(Exchanging(0, mine, theirs, Talking), Waiting(true), None, request, false, Some(0), None),
         NO_APPS, History(0, []), NoFault)
  }

  const SWITCHED := Transport([INIT, KEX, SWITCH], Direction(3, FIRST_KEY, []), 3, Direction(3, FIRST_KEY, []))

  /** A side whose first exchange has just completed. */
  function Switcher(isClient: bool, request: bool): Side
  {
    Side(isClient, SWITCHED,
         Loops(Exchanging(0, Some(0), Some(0), Finished), Waiting(true), None, request, false, Some(0), Some(FIRST)),
         NO_APPS, History(0, [FIRST]), NoFault)
  }

  const IDLE := Loops(Collecting, Reading, None, false, false, None, Some(FIRST))

  /** A side after its first exchange, showing the session to the layer above. */
  function Starter(isClient: bool): Side
  {
    Side(isClient, SWITCHED, IDLE.(reader := Delivering(SessionStart)), NO_APPS, History(1, [FIRST]), NoFault)
  }

  lemma BothTalking() returns (s: State)
    ensures Reachable(s)
    ensures s == State(Talker(true, [INIT], 1, false, None, None), Talker(false, [INIT], 1, true, None, None))
  {
    assert IsRun(START, []) && After(START, []) == START;
    hide Reachable;
    ReachableStep(START, Step(true, AInitiate(0)));
    var s1 := Next(START, Step(true, AInitiate(0)));
    ReachableStep(s1, Step(false, ARead(false)));
    var s2 := Next(s1, Step(false, ARead(false)));
    ReachableStep(s2, Step(false, AOffer));
    var s3 := Next(s2, Step(false, AOffer));
    ReachableStep(s3, Step(false, AAnswer(0)));
    var s4 := Next(s3, Step(false, AAnswer(0)));
    ReachableStep(s4, Step(true, ARead(false)));
    var s5 := Next(s4, Step(true, ARead(false)));
    ReachableStep(s5, Step(true, AOffer));
    var s6 := Next(s5, Step(true, AOffer));
    ReachableStep(s6, Step(true, AAnswer(0)));
    s := Next(s6, Step(true, AAnswer(0)));
  }

  lemma BothSpoke() returns (s: State)
    ensures Reachable(s)
    ensures s == State(Talker(true, [INIT, KEX], 2, false, Some(0), Some(0)), Talker(false, [INIT, KEX], 2, true, Some(0), Some(0)))
  {
    hide Reachable;
    var s0 := BothTalking();
    ReachableStep(s0, Step(true, ASpeak(0)));
    var s1 := Next(s0, Step(true, ASpeak(0)));
    ReachableStep(s1, Step(false, AListen));
    var s2 := Next(s1, Step(false, AListen));
    ReachableStep(s2, Step(false, ASpeak(0)));
    var s3 := Next(s2, Step(false, ASpeak(0)));
    ReachableStep(s3, Step(true, AListen));
    s := Next(s3, Step(true, AListen));
  }

  lemma BothSwitched() returns (s: State)
    ensures Reachable(s) && s == State(Switcher(true, false), Switcher(false, true))
  {
    hide Reachable;
    var s0 := BothSpoke();
    ReachableStep(s0, Step(true, APrepare));
    var s1 := Next(s0, Step(true, APrepare));
    ReachableStep(s1, Step(false, APrepare));
    var s2 := Next(s1, Step(false, APrepare));
    ReachableStep(s2, Step(true, ASwitch));
    var s3 := Next(s2, Step(true, ASwitch));
    ReachableStep(s3, Step(false, ASwitch));
    var s4 := Next(s3, Step(false, ASwitch));
    ReachableStep(s4, Step(true, AComplete));
    var s5 := Next(s4, Step(true, AComplete));
    ReachableStep(s5, Step(false, AComplete));
    s := Next(s5, Step(false, AComplete));
  }

  lemma BothStarted() returns (s: State)
    ensures Reachable(s) && s == State(Starter(true), Starter(false))
  {
    hide Reachable;
    var s0 := BothSwitched();
    ReachableStep(s0, Step(true, AFinish));
    var s1 := Next(s0, Step(true, AFinish));
    ReachableStep(s1, Step(false, AFinish));
    var s2 := Next(s1, Step(false, AFinish));
    ReachableStep(s2, Step(true, AFlush));
    var s3 := Next(s2, Step(true, AFlush));
    ReachableStep(s3, Step(false, AFlush));
    var s4 := Next(s3, Step(false, AFlush));
    ReachableStep(s4, Step(true, AResume));
    var s5 := Next(s4, Step(true, AResume));
    ReachableStep(s5, Step(false, AResume));
    s := Next(s5, Step(false, AResume));
  }

  /** The server has taken the session and written; the client's layer above has taken nothing, and everything is read. */
  predicate Filled(s: State, k: nat)
  {
    && s.x.loops == IDLE && s.y.loops == IDLE
    && |s.x.apps.incoming| == k && s.y.apps.taken != []
    && s.x.tr.count == |s.y.tr.log| > 0 && s.y.tr.count == |s.x.tr.log|
  }

  lemma FilledOne() returns (s: State)
    ensures Reachable(s) && Filled(s, 1)
  {
    hide Reachable;
    var s0 := BothStarted();
    ReachableStep(s0, Step(true, ADeliver));
    var s1 := Next(s0, Step(true, ADeliver));
    ReachableStep(s1, Step(false, ADeliver));
    var s2 := Next(s1, Step(false, ADeliver));
    ReachableStep(s2, Step(false, ATake));
    s := Next(s2, Step(false, ATake));
  }

  /** One more packet crosses the wire and is in the hands of the client's readLoop. */
  lemma WriteAndRead(s: State, k: nat, rekey: bool) returns (r: State)
    requires Reachable(s) && Filled(s, k)
    ensures Reachable(r)
    ensures r.x.loops == IDLE.(reader := Delivering(Data([0]))) && r.y.loops == IDLE.(requestKex := rekey)
    ensures r.x.apps.incoming == s.x.apps.incoming && r.y.apps.taken == s.y.apps.taken
    ensures r.x.tr.count == |r.y.tr.log| > 0 && r.y.tr.count == |r.x.tr.log|
  {
    hide Reachable;
    ReachableStep(s, Step(false, AWrite([0], rekey)));
    var s1 := Next(s, Step(false, AWrite([0], rekey)));
    ReadAsWritten(s1);
    ReachableStep(s1, Step(true, ARead(false)));
    r := Next(s1, Step(true, ARead(false)));
  }

  lemma {:induction false} FillUp(k: nat) returns (s: State)
    requires 1 <= k <= CHAN_SIZE
    ensures Reachable(s) && Filled(s, k)
  {
    hide Reachable;
    if k == 1 {
      s := FilledOne();
    } else {
      var s0 := FillUp(k - 1);
      var s1 := WriteAndRead(s0, k - 1, false);
      ReachableStep(s1, Step(true, ADeliver));
      s := Next(s1, Step(true, ADeliver));
    }
  }

  /** With one layer above reading nothing, sixteen packets fill its channel, the seventeenth stops its readLoop,
      and the KEXINIT behind it is never seen: no loop of either side can move. */
  lemma ExchangeSticks()
    ensures exists s :: Reachable(s) && s.y.loops.sentInit.Some? && |s.x.apps.incoming| == 16 && !LoopsCanMove(s)
  {
    hide Reachable, LoopsCanMove;
    var s0 := FillUp(CHAN_SIZE);
    var s1 := WriteAndRead(s0, CHAN_SIZE, true);
    ReachableStep(s1, Step(false, AInitiate(0)));
    var s := Next(s1, Step(false, AInitiate(0)));
    ExchangeStuckIff(s);
    assert Jammed(s.x) && Awaiting(s.y, s.x.tr.log);
  }
}
