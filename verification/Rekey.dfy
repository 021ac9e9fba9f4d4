/** Two sides exchanging keys any number of times while they talk: what holds in every
    state of every run without a failed write or exchange (sections 6.4, 7 and 9 of RFC 4253). */
module Rekey {
  import opened Bytes
  import opened Handshake
  import opened Options

  datatype Action =
    | AWrite(payload: Payload, rekey: bool)
    | ATake
    | ARead(rekey: bool)
    | ADeliver
    | AOffer
    | AResume
    | AAnswer(offer: nat)
    | AInitiate(offer: nat)
    | ASpeak(body: nat)
    | AListen
    | APrepare
    | ASwitch
    | AComplete
    | AFinish
    | AFlush

  predicate Enabled(x: Side, peer: seq<Record>, act: Action)
  {
    match act
    case AWrite(p, _) => CanWrite(x, p)
    case ATake => CanTake(x)
    case ARead(_) => CanRead(x, peer)
    case ADeliver => CanDeliver(x)
    case AOffer => CanOffer(x)
    case AResume => CanResume(x)
    case AAnswer(_) => CanAnswer(x)
    case AInitiate(_) => CanInitiate(x)
    case ASpeak(_) => CanSpeak(x)
    case AListen => CanListen(x, peer)
    case APrepare => CanPrepare(x)
    case ASwitch => CanSwitch(x)
    case AComplete => CanComplete(x, peer)
    case AFinish => CanFinish(x)
    case AFlush => CanFlush(x)
  }

  function Act(x: Side, peer: seq<Record>, act: Action): Side
    requires Enabled(x, peer, act)
  {
    match act
    case AWrite(p, rekey) => Write(x, p, rekey)
    case ATake => Take(x)
    case ARead(rekey) => Read(x, peer, rekey)
    case ADeliver => Deliver(x)
    case AOffer => Offer(x)
    case AResume => Resume(x)
    case AAnswer(offer) => Answer(x, offer)
    case AInitiate(offer) => Initiate(x, offer)
    case ASpeak(body) => Speak(x, body)
    case AListen => Listen(x, peer)
    case APrepare => Prepare(x)
    case ASwitch => Switch(x)
    case AComplete => Complete(x, peer)
    case AFinish => Finish(x)
    case AFlush => Flush(x)
  }

  // ---- Reading a log ----

  function InitsOf(log: seq<Record>): seq<nat>
  {
    if log == [] then []
    else
      var p := log[|log| - 1].packet;
      InitsOf(log[..|log| - 1]) + if p.KexInit? then [p.offer] else []
  }

  function DatasOf(log: seq<Record>): seq<nat>
  {
    if log == [] then []
    else
      var p := log[|log| - 1].packet;
      DatasOf(log[..|log| - 1]) + if p.KexData? then [p.body] else []
  }

  function SwitchesIn(log: seq<Record>): nat
  {
    if log == [] then 0
    else SwitchesIn(log[..|log| - 1]) + if log[|log| - 1].packet.NewKeys? then 1 else 0
  }

  function AppsOf(log: seq<Record>): seq<Payload>
  {
    if log == [] then []
    else
      var p := log[|log| - 1].packet;
      AppsOf(log[..|log| - 1]) + if p.App? then [p.payload] else []
  }

  /** What may follow: a KEXINIT or, once there was an exchange, an application packet outside an exchange;
      inside one, first the key exchange message, then NEWKEYS. */
  predicate Fits(log: seq<Record>, p: Packet)
  {
    var i, d, n := |InitsOf(log)|, |DatasOf(log)|, SwitchesIn(log);
    match p
    case App(_) => i == n && d == n && n > 0
    case KexInit(_) => i == n && d == n
    case KexData(_) => i == n + 1 && d == n
    case NewKeys => i == n + 1 && d == n + 1
  }

  /** Every exchange in the log is one KEXINIT, one key exchange message and one NEWKEYS, in this
      order and with nothing in between. */
  predicate WellFormed(log: seq<Record>)
  {
    log == [] || (WellFormed(log[..|log| - 1]) && Fits(log[..|log| - 1], log[|log| - 1].packet))
  }

  lemma Extend(log: seq<Record>, r: Record)
    ensures InitsOf(log + [r]) == InitsOf(log) + if r.packet.KexInit? then [r.packet.offer] else []
    ensures DatasOf(log + [r]) == DatasOf(log) + if r.packet.KexData? then [r.packet.body] else []
    ensures SwitchesIn(log + [r]) == SwitchesIn(log) + if r.packet.NewKeys? then 1 else 0
    ensures AppsOf(log + [r]) == AppsOf(log) + if r.packet.App? then [r.packet.payload] else []
    ensures WellFormed(log + [r]) <==> WellFormed(log) && Fits(log, r.packet)
  {
    assert (log + [r])[..|log|] == log;
  }

  lemma {:induction false} PrefixOf(log: seq<Record>, n: nat)
    requires n <= |log|
    ensures InitsOf(log[..n]) <= InitsOf(log) && DatasOf(log[..n]) <= DatasOf(log)
    ensures SwitchesIn(log[..n]) <= SwitchesIn(log) && AppsOf(log[..n]) <= AppsOf(log)
    ensures WellFormed(log) ==> WellFormed(log[..n])
  {
    if n == |log| {
      assert log[..n] == log;
    } else {
      var shorter := log[..|log| - 1];
      assert shorter[..n] == log[..n];
      PrefixOf(shorter, n);
    }
  }

  lemma Snoc(log: seq<Record>, n: nat)
    requires n < |log|
    ensures log[..n + 1] == log[..n] + [log[n]]
  {
  }

  /** The next record of a well-formed log fits what was read before it. */
  lemma NextFits(log: seq<Record>, n: nat)
    requires n < |log| && WellFormed(log)
    ensures Fits(log[..n], log[n].packet)
  {
    hide WellFormed, Fits, InitsOf, DatasOf, SwitchesIn, AppsOf;
    PrefixOf(log, n + 1);
    Snoc(log, n);
    Extend(log[..n], log[n]);
  }

  // ---- Invariants ----

  /** The side's own log against where its kexLoop is. */
  predicate Spoken(x: Side)
  {
    var d, k, log := x.past.rounds, x.loops.kex, x.tr.log;
    && WellFormed(log)
    && (k.Exchanging? ==> x.loops.sentInit.Some?)
    && (k.Exchanging? && !k.stage.Talking? ==> k.mine.Some? && k.theirs.Some?)
    && (k.Flushing? ==> x.loops.sentInit.None? && d > 0)
    && |InitsOf(log)| == d + (if x.loops.sentInit.Some? then 1 else 0)
    && (x.loops.sentInit.Some? ==> InitsOf(log)[d] == x.loops.sentInit.value)
    && |DatasOf(log)| == d + (if k.Exchanging? && k.mine.Some? then 1 else 0)
    && (k.Exchanging? && k.mine.Some? ==> DatasOf(log)[d] == k.mine.value)
    && SwitchesIn(log) == d + (if k.Exchanging? && (k.stage.Switched? || k.stage.Finished?) then 1 else 0)
    && x.apps.accepted == AppsOf(log) + x.apps.pending
    && (x.apps.pending == [] || x.loops.sentInit.Some? || k.Flushing?)
  }

  /** What the side has read of the peer's log against where its two loops are. */
  predicate Heard(x: Side, peer: seq<Record>)
  {
    var d, l, k := x.past.rounds, x.loops, x.loops.kex;
    && x.tr.count <= |peer|
    && (k.Exchanging? ==> l.reader.Waiting? && !l.done && l.startKex.None?)
    && (l.startKex.Some? ==> l.reader.Waiting? && !l.done)
    && (l.done ==> l.reader.Waiting? && d > 0)
    && (l.reader.Waiting? ==> l.done || l.startKex.Some? || k.Exchanging?)
    && var read := peer[..x.tr.count];
    && |InitsOf(read)| == d + (if l.reader.Offering? || (l.reader.Waiting? && !l.done) then 1 else 0)
    && (l.reader.Offering? ==> InitsOf(read)[d] == l.reader.init)
    && (l.startKex.Some? ==> InitsOf(read)[d] == l.startKex.value)
    && (k.Exchanging? ==> InitsOf(read)[d] == k.other)
    && |DatasOf(read)| == d + (if k.Exchanging? && k.theirs.Some? then 1 else 0)
    && (k.Exchanging? && k.theirs.Some? ==> DatasOf(read)[d] == k.theirs.value)
    && SwitchesIn(read) == d + (if k.Exchanging? && k.stage.Finished? then 1 else 0)
    && x.apps.received == AppsOf(read)
  }

  /** The key in use after `n` switches. */
  function KeyFor(exchanges: seq<Transcript>, n: nat): Key
    requires n <= |exchanges|
  {
    if n == 0 then Plain else Keyed(exchanges[n - 1], exchanges[0])
  }

  predicate Covers(log: seq<Record>, n: nat)
  {
    n < |InitsOf(log)| && n < |DatasOf(log)|
  }

  /** The transcript of exchange `n` as two logs tell it. */
  function ExchangeOf(isClient: bool, mine: seq<Record>, theirs: seq<Record>, n: nat): Transcript
    requires Covers(mine, n) && Covers(theirs, n)
  {
    if isClient then Transcript(InitsOf(mine)[n], InitsOf(theirs)[n], DatasOf(mine)[n], DatasOf(theirs)[n])
    else Transcript(InitsOf(theirs)[n], InitsOf(mine)[n], DatasOf(theirs)[n], DatasOf(mine)[n])
  }

  /** Every exchange the side has prepared is the one the two logs tell. */
  predicate Agreed(x: Side, peer: seq<Record>)
  {
    var k := x.loops.kex;
    && |x.past.exchanges| == x.past.rounds + (if k.Exchanging? && !k.stage.Talking? then 1 else 0)
    && (forall n :: 0 <= n < |x.past.exchanges| ==>
          Covers(x.tr.log, n) && Covers(peer, n) && x.past.exchanges[n] == ExchangeOf(x.isClient, x.tr.log, peer, n))
    && x.loops.session == if x.past.exchanges == [] then None else Some(x.past.exchanges[0])
  }

  predicate DirectionOk(d: Direction, exchanges: seq<Transcript>, seqNum: nat, switches: nat, next: bool)
  {
    && d.seqNum == seqNum % U32_MODULUS
    && switches <= |exchanges| && d.key == KeyFor(exchanges, switches)
    && (next ==> switches < |exchanges|)
    && d.prepared == if next then [KeyFor(exchanges, switches + 1)] else []
  }

  /** Each direction uses the key of as many switches as its log shows, and holds the next one
      exactly between preparing it and switching to it. */
  predicate CiphersOk(x: Side, peer: seq<Record>)
    requires x.tr.count <= |peer|
  {
    var k := x.loops.kex;
    && DirectionOk(x.tr.writer, x.past.exchanges, |x.tr.log|, SwitchesIn(x.tr.log), k.Exchanging? && k.stage.Prepared?)
    && DirectionOk(x.tr.reader, x.past.exchanges, x.tr.count, SwitchesIn(peer[..x.tr.count]),
                   k.Exchanging? && (k.stage.Prepared? || k.stage.Switched?))
  }

  predicate RecordOk(log: seq<Record>, i: nat, exchanges: seq<Transcript>)
    requires i < |log|
  {
    && log[i].seqNum == i % U32_MODULUS
    && SwitchesIn(log[..i]) <= |exchanges|
    && log[i].key == KeyFor(exchanges, SwitchesIn(log[..i]))
  }

  predicate Recorded(x: Side)
  {
    forall i :: 0 <= i < |x.tr.log| ==> RecordOk(x.tr.log, i, x.past.exchanges)
  }

  /** The packets of a list that the layer above is to see. */
  function Shown(ps: seq<Payload>): seq<Item>
  {
    if ps == [] then []
    else
      var last := ps[|ps| - 1];
      Shown(ps[..|ps| - 1]) + if Ignored(last) then [] else [Data(last)]
  }

  /** What the layer above has been given, is about to be given, and is still being given. */
  function Given(x: Side): seq<Item>
  {
    x.apps.taken + x.apps.incoming + if x.loops.reader.Delivering? then [x.loops.reader.item] else []
  }

  /** The first exchange is over and readLoop has gone on. */
  predicate Started(x: Side)
  {
    x.past.rounds > 0 && !(x.loops.reader.Waiting? && x.loops.reader.first)
  }

  /** The layer above is given the session's start and then what was read, in order. */
  predicate Served(x: Side)
  {
    var r := x.loops.reader;
    && |x.apps.incoming| <= CHAN_SIZE
    && (r.Offering? ==> (r.first <==> x.past.rounds == 0))
    && (r.Waiting? ==> (r.first <==> x.past.rounds == if x.loops.done then 1 else 0))
    && (Given(x) == if Started(x) then [SessionStart] + Shown(x.apps.received) else Shown(x.apps.received))
    && (!Started(x) ==> x.apps.received == [])
  }

  predicate Holds(x: Side, peer: seq<Record>)
  {
    && Spoken(x)
    && Heard(x, peer)
    && Served(x)
    && Agreed(x, peer)
    && CiphersOk(x, peer)
    && Recorded(x)
    && x.fault == NoFault
  }

  predicate Inv(x: Side, y: Side)
  {
    Holds(x, y.tr.log) && Holds(y, x.tr.log) && x.isClient != y.isClient
  }

  // ---- The peer's log grows ----

  lemma HeardGrows(x: Side, peer: seq<Record>, more: seq<Record>)
    requires Heard(x, peer)
    ensures Heard(x, peer + more)
  {
    assert (peer + more)[..x.tr.count] == peer[..x.tr.count];
  }

  lemma CoversGrows(log: seq<Record>, more: seq<Record>, n: nat)
    requires Covers(log, n)
    ensures Covers(log + more, n)
    ensures InitsOf(log + more)[n] == InitsOf(log)[n] && DatasOf(log + more)[n] == DatasOf(log)[n]
  {
    assert (log + more)[..|log|] == log;
    PrefixOf(log + more, |log|);
  }

  lemma PeerGrows(x: Side, peer: seq<Record>, more: seq<Record>)
    requires Holds(x, peer)
    ensures Holds(x, peer + more)
  {
    hide Spoken, Heard, Recorded, DirectionOk, InitsOf, DatasOf, Covers;
    HeardGrows(x, peer, more);
    HeardCount(x, peer);
    assert (peer + more)[..x.tr.count] == peer[..x.tr.count];
    forall n | 0 <= n < |x.past.exchanges|
      ensures Covers(peer + more, n) && x.past.exchanges[n] == ExchangeOf(x.isClient, x.tr.log, peer + more, n)
    {
      CoversGrows(peer, more, n);
    }
  }

  lemma HeardCount(x: Side, peer: seq<Record>)
    requires Heard(x, peer)
    ensures x.tr.count <= |peer|
  {
  }

  // ---- The next record can be read ----

  /** Both sides derive the same key for the same number of switches. */
  lemma SameKey(x: Side, y: Side, n: nat)
    requires Agreed(x, y.tr.log) && Agreed(y, x.tr.log) && x.isClient != y.isClient
    requires n <= |x.past.exchanges| && n <= |y.past.exchanges|
    ensures KeyFor(x.past.exchanges, n) == KeyFor(y.past.exchanges, n)
  {
    if n > 0 {
      SameExchange(x, y, n - 1);
      SameExchange(x, y, 0);
    }
  }

  lemma SameExchange(x: Side, y: Side, n: nat)
    requires Agreed(x, y.tr.log) && Agreed(y, x.tr.log) && x.isClient != y.isClient
    requires n < |x.past.exchanges| && n < |y.past.exchanges|
    ensures x.past.exchanges[n] == y.past.exchanges[n]
  {
  }

  /** A record is always read with the sequence number and key it was written with. */
  lemma PullMatches(x: Side, y: Side)
    requires Inv(x, y) && CanPull(x, y.tr.log)
    ensures var rec := y.tr.log[x.tr.count]; rec.seqNum == x.tr.reader.seqNum && rec.key == x.tr.reader.key
    ensures Fits(y.tr.log[..x.tr.count], y.tr.log[x.tr.count].packet)
  {
    hide Heard, Fits, InitsOf, DatasOf, AppsOf, WellFormed, Agreed, KeyFor;
    NextFits(y.tr.log, x.tr.count);
    assert RecordOk(y.tr.log, x.tr.count, y.past.exchanges);
    SameKey(x, y, SwitchesIn(y.tr.log[..x.tr.count]));
  }

  // ---- Serving the layer above ----

  /** Nothing that concerns the layer above has changed. */
  predicate SameService(x: Side, x': Side)
  {
    && x'.apps.taken == x.apps.taken && x'.apps.incoming == x.apps.incoming && x'.apps.received == x.apps.received
    && x'.loops.reader == x.loops.reader && x'.loops.done == x.loops.done && x'.past.rounds == x.past.rounds
  }

  lemma ServedSame(x: Side, x': Side)
    requires Served(x) && SameService(x, x')
    ensures Served(x')
  {
  }

  lemma ShownNothing()
    ensures Shown([]) == []
  {
  }

  lemma ShownMore(ps: seq<Payload>, p: Payload)
    ensures Shown(ps + [p]) == Shown(ps) + if Ignored(p) then [] else [Data(p)]
  {
    assert (ps + [p])[..|ps|] == ps;
  }

  /** The session is shown only after an exchange. */
  lemma TakenAfterExchange(x: Side)
    requires Served(x) && x.apps.taken != []
    ensures x.past.rounds > 0
  {
    assert Given(x)[0] == x.apps.taken[0];
  }

  lemma NothingRead(read: seq<Record>)
    ensures read == [] ==> SwitchesIn(read) == 0
  {
  }

  lemma ReadServed(x: Side, peer: seq<Record>, rekey: bool)
    requires Served(x) && Heard(x, peer) && Agreed(x, peer) && CanRead(x, peer)
    requires peer[x.tr.count].packet.App? || peer[x.tr.count].packet.KexInit?
    requires peer[x.tr.count].packet.App? ==> x.past.rounds > 0 && x.tr.count > 0
    ensures Served(Read(x, peer, rekey))
  {
    hide InitsOf, DatasOf, AppsOf, SwitchesIn, ExchangeOf, Covers, Shown;
    if peer[x.tr.count].packet.App? {
      ShownMore(x.apps.received, peer[x.tr.count].packet.payload);
      assert Given(x) == x.apps.taken + x.apps.incoming;
    }
  }

  // ---- Writing ----

  predicate PastTalking(x: Side)
  {
    x.loops.kex.Exchanging? && !x.loops.kex.stage.Talking?
  }

  lemma AgreedGrows(x: Side, x': Side, peer: seq<Record>, r: Record)
    requires Agreed(x, peer) && x'.tr.log == x.tr.log + [r]
    requires x'.past == x.past && x'.isClient == x.isClient && x'.loops.session == x.loops.session
    requires PastTalking(x) <==> PastTalking(x')
    ensures Agreed(x', peer)
  {
    hide InitsOf, DatasOf, Covers;
    forall n | 0 <= n < |x.past.exchanges|
      ensures Covers(x'.tr.log, n) && x.past.exchanges[n] == ExchangeOf(x.isClient, x'.tr.log, peer, n)
    {
      CoversGrows(x.tr.log, [r], n);
    }
  }

  lemma RecordedGrows(x: Side, x': Side, r: Record)
    requires Recorded(x) && x'.tr.log == x.tr.log + [r] && x'.past.exchanges == x.past.exchanges
    requires SwitchesIn(x.tr.log) <= |x.past.exchanges|
    requires r.seqNum == |x.tr.log| % U32_MODULUS && r.key == KeyFor(x.past.exchanges, SwitchesIn(x.tr.log))
    ensures Recorded(x')
  {
    hide SwitchesIn;
    forall i | 0 <= i < |x'.tr.log|
      ensures RecordOk(x'.tr.log, i, x.past.exchanges)
    {
      if i < |x.tr.log| {
        assert RecordOk(x.tr.log, i, x.past.exchanges);
        assert x'.tr.log[..i] == x.tr.log[..i];
      } else {
        assert x'.tr.log[..i] == x.tr.log;
      }
    }
  }

  /** A push that does not switch keys keeps the three key invariants. */
  lemma PushKeepsKeys(x: Side, x': Side, peer: seq<Record>, p: Packet)
    requires x.tr.count <= |peer|
    requires Agreed(x, peer) && CiphersOk(x, peer) && Recorded(x) && !p.NewKeys?
    requires x'.tr == Push(x, p).tr && x'.past == x.past && x'.isClient == x.isClient && x'.loops.session == x.loops.session
    requires PastTalking(x) <==> PastTalking(x')
    requires PastTalking(x) ==> x'.loops.kex.stage == x.loops.kex.stage
    ensures Agreed(x', peer) && CiphersOk(x', peer) && Recorded(x')
  {
    var r := Record(p, x.tr.writer.seqNum, x.tr.writer.key);
    AgreedGrows(x, x', peer, r);
    RecordedGrows(x, x', r);
    hide InitsOf, DatasOf, AppsOf, SwitchesIn, WellFormed, Agreed, Recorded, Fits, KeyFor;
    Extend(x.tr.log, r);
    NextSeq(|x.tr.log|);
  }

  lemma NextSeq(n: nat)
    ensures (n % U32_MODULUS + 1) % U32_MODULUS == (n + 1) % U32_MODULUS
  {
  }

  lemma WriteKeeps(x: Side, peer: seq<Record>, p: Payload, rekey: bool)
    requires Holds(x, peer) && CanWrite(x, p)
    ensures Holds(Write(x, p, rekey), peer)
  {
    hide InitsOf, DatasOf, AppsOf, SwitchesIn, WellFormed, Agreed, CiphersOk, Recorded, Served;
    ServedSame(x, Write(x, p, rekey));
    TakenAfterExchange(x);
    var x' := Write(x, p, rekey);
    if p[0] == 20 || p[0] == 21 {
      assert x' == x;
    } else if x.loops.sentInit.Some? {
      QueueKeepsKeys(x, x', peer);
    } else {
      PushKeepsKeys(x, x', peer, App(p));
      Extend(x.tr.log, Record(App(p), x.tr.writer.seqNum, x.tr.writer.key));
    }
  }

  lemma TakeKeeps(x: Side, peer: seq<Record>)
    requires Holds(x, peer) && CanTake(x)
    ensures Holds(Take(x), peer)
  {
    hide InitsOf, DatasOf, AppsOf, SwitchesIn, WellFormed, Agreed, CiphersOk, Recorded, Shown;
    ShownNothing();
    assert Given(x)[0] == SessionStart;
    assert Given(Take(x)) == Given(x);
    QueueKeepsKeys(x, Take(x), peer);
  }

  lemma DeliverKeeps(x: Side, peer: seq<Record>)
    requires Holds(x, peer) && CanDeliver(x)
    ensures Holds(Deliver(x), peer)
  {
    hide InitsOf, DatasOf, AppsOf, SwitchesIn, WellFormed, Agreed, CiphersOk, Recorded, Shown;
    assert Given(Deliver(x)) == Given(x);
    QueueKeepsKeys(x, Deliver(x), peer);
  }

  lemma QueueKeepsKeys(x: Side, x': Side, peer: seq<Record>)
    requires x.tr.count <= |peer|
    requires Agreed(x, peer) && CiphersOk(x, peer) && Recorded(x)
    requires x'.tr == x.tr && x'.past == x.past && x'.isClient == x.isClient && x'.loops.session == x.loops.session
    requires PastTalking(x) <==> PastTalking(x')
    requires PastTalking(x) ==> x'.loops.kex.stage == x.loops.kex.stage
    ensures Agreed(x', peer) && CiphersOk(x', peer) && Recorded(x')
  {
  }

  lemma FlushKeeps(x: Side, peer: seq<Record>)
    requires Holds(x, peer) && CanFlush(x)
    ensures Holds(Flush(x), peer)
  {
    hide InitsOf, DatasOf, AppsOf, SwitchesIn, WellFormed, Agreed, CiphersOk, Recorded, Served;
    ServedSame(x, Flush(x));
    var x' := Flush(x);
    if x.apps.pending == [] {
      QueueKeepsKeys(x, x', peer);
    } else {
      var p := App(x.apps.pending[0]);
      PushKeepsKeys(x, x', peer, p);
      Extend(x.tr.log, Record(p, x.tr.writer.seqNum, x.tr.writer.key));
      assert x.apps.pending == [x.apps.pending[0]] + x.apps.pending[1..];
    }
  }

  lemma SpeakKeeps(x: Side, peer: seq<Record>, body: nat)
    requires Holds(x, peer) && CanSpeak(x)
    ensures Holds(Speak(x, body), peer)
  {
    hide InitsOf, DatasOf, AppsOf, SwitchesIn, WellFormed, Agreed, CiphersOk, Recorded, Served;
    ServedSame(x, Speak(x, body));
    PushKeepsKeys(x, Speak(x, body), peer, KexData(body));
    Extend(x.tr.log, Record(KexData(body), x.tr.writer.seqNum, x.tr.writer.key));
  }

  lemma InitiateKeeps(x: Side, peer: seq<Record>, offer: nat)
    requires Holds(x, peer) && CanInitiate(x)
    ensures Holds(Initiate(x, offer), peer)
  {
    hide InitsOf, DatasOf, AppsOf, SwitchesIn, WellFormed, Agreed, CiphersOk, Recorded, Served;
    ServedSame(x, Initiate(x, offer));
    var x' := Initiate(x, offer);
    if x.loops.sentInit.Some? {
      QueueKeepsKeys(x, x', peer);
    } else {
      PushKeepsKeys(x, x', peer, KexInit(offer));
      Extend(x.tr.log, Record(KexInit(offer), x.tr.writer.seqNum, x.tr.writer.key));
    }
  }

  lemma AnswerKeeps(x: Side, peer: seq<Record>, offer: nat)
    requires Holds(x, peer) && CanAnswer(x)
    ensures Holds(Answer(x, offer), peer)
  {
    hide InitsOf, DatasOf, AppsOf, SwitchesIn, WellFormed, Agreed, CiphersOk, Recorded, Served;
    ServedSame(x, Answer(x, offer));
    var x' := Answer(x, offer);
    if x.loops.sentInit.Some? {
      QueueKeepsKeys(x, x', peer);
    } else {
      PushKeepsKeys(x, x', peer, KexInit(offer));
      Extend(x.tr.log, Record(KexInit(offer), x.tr.writer.seqNum, x.tr.writer.key));
    }
  }

  lemma SwitchKeyed(x: Side, peer: seq<Record>)
    requires x.tr.count <= |peer| && CiphersOk(x, peer) && CanSwitch(x)
    ensures CiphersOk(Switch(x), peer) && Switch(x).fault == x.fault
  {
    hide SwitchesIn, KeyFor;
    Extend(x.tr.log, Record(NewKeys, x.tr.writer.seqNum, x.tr.writer.key));
    NextSeq(|x.tr.log|);
  }

  lemma SwitchSpoken(x: Side)
    requires Spoken(x) && CanSwitch(x)
    ensures Spoken(Switch(x))
  {
    hide InitsOf, DatasOf, AppsOf, SwitchesIn, WellFormed;
    Extend(x.tr.log, Record(NewKeys, x.tr.writer.seqNum, x.tr.writer.key));
  }

  lemma SwitchKeeps(x: Side, peer: seq<Record>)
    requires Holds(x, peer) && CanSwitch(x)
    ensures Holds(Switch(x), peer)
  {
    hide InitsOf, DatasOf, AppsOf, SwitchesIn, WellFormed, Agreed, Recorded, KeyFor, Spoken, Served;
    ServedSame(x, Switch(x));
    var r := Record(NewKeys, x.tr.writer.seqNum, x.tr.writer.key);
    AgreedGrows(x, Switch(x), peer, r);
    RecordedGrows(x, Switch(x), r);
    SwitchSpoken(x);
    SwitchKeyed(x, peer);
  }

  // ---- Reading ----

  lemma OfferKeeps(x: Side, peer: seq<Record>)
    requires Holds(x, peer) && CanOffer(x)
    ensures Holds(Offer(x), peer)
  {
    hide InitsOf, DatasOf, AppsOf, SwitchesIn, WellFormed, Agreed, CiphersOk, Recorded;
    QueueKeepsKeys(x, Offer(x), peer);
  }

  lemma ResumeKeeps(x: Side, peer: seq<Record>)
    requires Holds(x, peer) && CanResume(x)
    ensures Holds(Resume(x), peer)
  {
    hide InitsOf, DatasOf, AppsOf, SwitchesIn, WellFormed, Agreed, CiphersOk, Recorded;
    QueueKeepsKeys(x, Resume(x), peer);
  }

  lemma FinishKeeps(x: Side, peer: seq<Record>)
    requires Holds(x, peer) && CanFinish(x)
    ensures Holds(Finish(x), peer)
  {
    hide InitsOf, DatasOf, AppsOf, SwitchesIn, WellFormed, Recorded, ExchangeOf, Covers;
    FinishRecorded(x);
  }

  lemma FinishRecorded(x: Side)
    requires Recorded(x) && CanFinish(x)
    ensures Recorded(Finish(x))
  {
  }

  /** The record read extends what was read. */
  lemma ReadExtends(x: Side, peer: seq<Record>)
    requires CanPull(x, peer)
    ensures var read, r := peer[..x.tr.count], peer[x.tr.count];
            && InitsOf(peer[..x.tr.count + 1]) == InitsOf(read) + (if r.packet.KexInit? then [r.packet.offer] else [])
            && DatasOf(peer[..x.tr.count + 1]) == DatasOf(read) + (if r.packet.KexData? then [r.packet.body] else [])
            && SwitchesIn(peer[..x.tr.count + 1]) == SwitchesIn(read) + (if r.packet.NewKeys? then 1 else 0)
            && AppsOf(peer[..x.tr.count + 1]) == AppsOf(read) + (if r.packet.App? then [r.packet.payload] else [])
  {
    hide InitsOf, DatasOf, AppsOf, SwitchesIn;
    Snoc(peer, x.tr.count);
    Extend(peer[..x.tr.count], peer[x.tr.count]);
  }

  lemma PullKeepsKeys(x: Side, x': Side, peer: seq<Record>)
    requires CanPull(x, peer) && !peer[x.tr.count].packet.NewKeys?
    requires Agreed(x, peer) && CiphersOk(x, peer) && Recorded(x)
    requires peer[x.tr.count].seqNum == x.tr.reader.seqNum && peer[x.tr.count].key == x.tr.reader.key
    requires x'.tr == Pull(x, peer).tr && x'.past == x.past && x'.isClient == x.isClient && x'.loops.session == x.loops.session
    requires PastTalking(x) <==> PastTalking(x')
    requires PastTalking(x) ==> x'.loops.kex.stage == x.loops.kex.stage
    ensures Agreed(x', peer) && CiphersOk(x', peer) && Recorded(x')
  {
    hide InitsOf, DatasOf, AppsOf, SwitchesIn, KeyFor;
    ReadExtends(x, peer);
    NextSeq(x.tr.count);
  }

  lemma ReadKeeps(x: Side, y: Side, rekey: bool)
    requires Inv(x, y) && CanRead(x, y.tr.log)
    ensures Holds(Read(x, y.tr.log, rekey), y.tr.log)
  {
    hide InitsOf, DatasOf, AppsOf, SwitchesIn, WellFormed, Agreed, CiphersOk, Recorded, Served;
    PullMatches(x, y);
    NothingRead(y.tr.log[..x.tr.count]);
    ReadServed(x, y.tr.log, rekey);
    ReadExtends(x, y.tr.log);
    PullKeepsKeys(x, Read(x, y.tr.log, rekey), y.tr.log);
  }

  lemma ListenKeeps(x: Side, y: Side)
    requires Inv(x, y) && CanListen(x, y.tr.log)
    ensures Holds(Listen(x, y.tr.log), y.tr.log)
  {
    hide InitsOf, DatasOf, AppsOf, SwitchesIn, WellFormed, Agreed, CiphersOk, Recorded, Served;
    ServedSame(x, Listen(x, y.tr.log));
    PullMatches(x, y);
    ReadExtends(x, y.tr.log);
    PullKeepsKeys(x, Listen(x, y.tr.log), y.tr.log);
  }

  lemma CompleteKeeps(x: Side, y: Side)
    requires Inv(x, y) && CanComplete(x, y.tr.log)
    ensures Holds(Complete(x, y.tr.log), y.tr.log)
  {
    hide InitsOf, DatasOf, AppsOf, SwitchesIn, WellFormed, Recorded, KeyFor, Covers, ExchangeOf, Served;
    ServedSame(x, Complete(x, y.tr.log));
    PullMatches(x, y);
    ReadExtends(x, y.tr.log);
    NextSeq(x.tr.count);
    CompleteRecorded(x, y.tr.log);
  }

  lemma CompleteRecorded(x: Side, peer: seq<Record>)
    requires Recorded(x) && CanComplete(x, peer)
    ensures Recorded(Complete(x, peer))
  {
  }

  // ---- Preparing ----

  lemma KeyForExtend(exchanges: seq<Transcript>, t: Transcript, n: nat)
    requires n <= |exchanges|
    ensures KeyFor(exchanges + [t], n) == KeyFor(exchanges, n)
  {
  }

  lemma PrepareRecorded(x: Side)
    requires Recorded(x) && CanPrepare(x)
    ensures Recorded(Prepare(x))
  {
    hide SwitchesIn, KeyFor;
    forall i | 0 <= i < |x.tr.log|
      ensures RecordOk(x.tr.log, i, Prepare(x).past.exchanges)
    {
      assert RecordOk(x.tr.log, i, x.past.exchanges);
      KeyForExtend(x.past.exchanges, Outcome(x), SwitchesIn(x.tr.log[..i]));
    }
  }

  lemma PrepareAgreed(x: Side, peer: seq<Record>)
    requires Spoken(x) && Heard(x, peer) && Agreed(x, peer) && CanPrepare(x)
    ensures Agreed(Prepare(x), peer)
  {
    hide InitsOf, DatasOf, SwitchesIn, AppsOf, WellFormed;
    PrefixOf(peer, x.tr.count);
    var x' := Prepare(x);
    var d := x.past.rounds;
    assert Covers(x.tr.log, d) && Covers(peer, d);
    assert Outcome(x) == ExchangeOf(x.isClient, x.tr.log, peer, d);
    forall n | 0 <= n < |x'.past.exchanges|
      ensures Covers(x.tr.log, n) && Covers(peer, n) && x'.past.exchanges[n] == ExchangeOf(x.isClient, x.tr.log, peer, n)
    {
      if n < d {
        assert x'.past.exchanges[n] == x.past.exchanges[n];
      }
    }
  }

  lemma PrepareKeyed(x: Side, peer: seq<Record>)
    requires Spoken(x) && Heard(x, peer) && Agreed(x, peer) && CiphersOk(x, peer) && CanPrepare(x)
    ensures CiphersOk(Prepare(x), peer)
  {
    hide InitsOf, DatasOf, SwitchesIn, AppsOf, WellFormed, Covers, ExchangeOf;
    KeyForExtend(x.past.exchanges, Outcome(x), x.past.rounds);
    assert KeyFor(Prepare(x).past.exchanges, x.past.rounds + 1)
        == Keyed(Outcome(x), if x.loops.session.Some? then x.loops.session.value else Outcome(x));
  }

  lemma PrepareKeeps(x: Side, peer: seq<Record>)
    requires Holds(x, peer) && CanPrepare(x)
    ensures Holds(Prepare(x), peer)
  {
    hide Served;
    ServedSame(x, Prepare(x));
    PrepareRecorded(x);
    PrepareAgreed(x, peer);
    PrepareKeyed(x, peer);
    hide InitsOf, DatasOf, SwitchesIn, AppsOf, WellFormed, Agreed, CiphersOk, Recorded;
  }

  // ---- Every run ----

  datatype State = State(x: Side, y: Side)

  datatype Step = Step(byX: bool, action: Action)

  predicate CanStep(s: State, step: Step)
  {
    if step.byX then Enabled(s.x, s.y.tr.log, step.action) else Enabled(s.y, s.x.tr.log, step.action)
  }

  function Next(s: State, step: Step): State
    requires CanStep(s, step)
  {
    if step.byX then State(Act(s.x, s.y.tr.log, step.action), s.y)
    else State(s.x, Act(s.y, s.x.tr.log, step.action))
  }

  ghost predicate IsRun(s: State, steps: seq<Step>)
    decreases |steps|
  {
    steps == [] || (CanStep(s, steps[0]) && IsRun(Next(s, steps[0]), steps[1..]))
  }

  ghost function After(s: State, steps: seq<Step>): State
    requires IsRun(s, steps)
    decreases |steps|
  {
    if steps == [] then s else After(Next(s, steps[0]), steps[1..])
  }

  /** The connection starts in the clear, with the mandatory first exchange requested. */
  function NewSide(isClient: bool): Side
  {
    var plain := Direction(0, Plain, []);
    Side(isClient, Transport([], plain, 0, plain),
         Loops(Collecting, Reading, None, true, false, None, None), Apps([], [], [], [], []), History(0, []), NoFault)
  }

  const START := State(NewSide(true), NewSide(false))

  ghost predicate Reachable(s: State)
  {
    exists steps: seq<Step> :: IsRun(START, steps) && After(START, steps) == s
  }

  lemma ActKeeps(x: Side, y: Side, act: Action)
    requires Inv(x, y) && Enabled(x, y.tr.log, act)
    ensures Holds(Act(x, y.tr.log, act), y.tr.log)
  {
    hide Holds;
    OneSide(x, y);
    match act
    case AWrite(p, rekey) => WriteKeeps(x, y.tr.log, p, rekey);
    case ATake => TakeKeeps(x, y.tr.log);
    case ARead(rekey) => ReadKeeps(x, y, rekey);
    case ADeliver => DeliverKeeps(x, y.tr.log);
    case AOffer => OfferKeeps(x, y.tr.log);
    case AResume => ResumeKeeps(x, y.tr.log);
    case AAnswer(offer) => AnswerKeeps(x, y.tr.log, offer);
    case AInitiate(offer) => InitiateKeeps(x, y.tr.log, offer);
    case ASpeak(body) => SpeakKeeps(x, y.tr.log, body);
    case AListen => ListenKeeps(x, y);
    case APrepare => PrepareKeeps(x, y.tr.log);
    case ASwitch => SwitchKeeps(x, y.tr.log);
    case AComplete => CompleteKeeps(x, y);
    case AFinish => FinishKeeps(x, y.tr.log);
    case AFlush => FlushKeeps(x, y.tr.log);
  }

  lemma OneSide(x: Side, y: Side)
    requires Inv(x, y)
    ensures Holds(x, y.tr.log) && Holds(y, x.tr.log) && Inv(y, x)
  {
  }

  /** Logs and prepared exchanges only grow. */
  lemma ActGrows(x: Side, peer: seq<Record>, act: Action)
    requires Enabled(x, peer, act)
    ensures x.tr.log <= Act(x, peer, act).tr.log
    ensures x.past.exchanges <= Act(x, peer, act).past.exchanges
    ensures Act(x, peer, act).isClient == x.isClient
  {
  }

  lemma MoveKeepsInv(x: Side, y: Side, act: Action)
    requires Inv(x, y) && Enabled(x, y.tr.log, act)
    ensures Inv(Act(x, y.tr.log, act), y)
  {
    hide Holds, Act, Enabled;
    var x' := Act(x, y.tr.log, act);
    ActKeeps(x, y, act);
    ActGrows(x, y.tr.log, act);
    PeerGrows(y, x.tr.log, x'.tr.log[|x.tr.log|..]);
    assert x'.tr.log == x.tr.log + x'.tr.log[|x.tr.log|..];
  }

  lemma StepKeepsInv(s: State, step: Step)
    requires Inv(s.x, s.y) && CanStep(s, step)
    ensures var s' := Next(s, step); Inv(s'.x, s'.y)
  {
    hide Holds, Act, Enabled;
    OneSide(s.x, s.y);
    if step.byX {
      MoveKeepsInv(s.x, s.y, step.action);
    } else {
      MoveKeepsInv(s.y, s.x, step.action);
      OneSide(Next(s, step).y, s.x);
    }
  }

  lemma {:induction false} RunKeepsInv(s: State, steps: seq<Step>)
    requires Inv(s.x, s.y) && IsRun(s, steps)
    ensures var s' := After(s, steps);
            Inv(s'.x, s'.y) && s.x.past.exchanges <= s'.x.past.exchanges && s.y.past.exchanges <= s'.y.past.exchanges
    decreases |steps|
  {
    hide Inv, Act, Enabled;
    if steps != [] {
      StepKeepsInv(s, steps[0]);
      RunKeepsInv(Next(s, steps[0]), steps[1..]);
      if steps[0].byX {
        ActGrows(s.x, s.y.tr.log, steps[0].action);
      } else {
        ActGrows(s.y, s.x.tr.log, steps[0].action);
      }
    }
  }

  lemma StartHolds()
    ensures Inv(START.x, START.y)
  {
  }

  lemma ReachableInv(s: State)
    requires Reachable(s)
    ensures Inv(s.x, s.y)
  {
    hide Inv, IsRun, After;
    var steps: seq<Step> :| IsRun(START, steps) && After(START, steps) == s;
    StartHolds();
    RunKeepsInv(START, steps);
  }

  // ---- Main results ----

  /** No run without a failed write ends in a MAC failure, a bogus NEWKEYS, a missing key or a message
      out of turn; and the next packet on either wire carries the sequence number and the key its
      reader is about to use, whatever the number of exchanges so far. */
  lemma ReadAsWritten(s: State)
    requires Reachable(s)
    ensures s.x.fault == NoFault && s.y.fault == NoFault
    ensures CanPull(s.x, s.y.tr.log) ==>
              var r := s.y.tr.log[s.x.tr.count]; r.seqNum == s.x.tr.reader.seqNum && r.key == s.x.tr.reader.key
    ensures CanPull(s.y, s.x.tr.log) ==>
              var r := s.x.tr.log[s.y.tr.count]; r.seqNum == s.y.tr.reader.seqNum && r.key == s.y.tr.reader.key
  {
    ReachableInv(s);
    OneSide(s.x, s.y);
    if CanPull(s.x, s.y.tr.log) { PullMatches(s.x, s.y); }
    if CanPull(s.y, s.x.tr.log) { PullMatches(s.y, s.x); }
  }

  lemma {:induction false} ShownPrefix(ps: seq<Payload>, qs: seq<Payload>)
    requires ps <= qs
    ensures Shown(ps) <= Shown(qs)
  {
    if |ps| < |qs| {
      ShownPrefix(ps, qs[..|qs| - 1]);
    } else {
      assert ps == qs;
    }
  }

  lemma TakenIsShown(x: Side)
    requires Served(x)
    ensures x.apps.taken <= [SessionStart] + Shown(x.apps.received)
  {
    hide Shown;
    ShownNothing();
    assert x.apps.taken <= Given(x);
  }

  /** `at` picks, in order, the packets that were given. Of the first `n` they are exactly those whose first octet is
      neither 2 nor 4 (sections 11.2 and 11.3 of RFC 4253). */
  ghost predicate Picks(accepted: seq<Payload>, given: seq<Item>, at: seq<nat>, n: nat)
  {
    && n <= |accepted| && |at| == |given|
    && (forall k :: 0 <= k < |at| ==> at[k] < n && given[k] == Data(accepted[at[k]]))
    && (forall k, l :: 0 <= k < l < |at| ==> at[k] < at[l])
    && (forall j :: 0 <= j < n ==> (j in at <==> accepted[j] == [] || (accepted[j][0] != 2 && accepted[j][0] != 4)))
  }

  lemma PicksNext(accepted: seq<Payload>, given: seq<Item>, at: seq<nat>, n: nat)
    requires Picks(accepted, given, at, n) && n < |accepted|
    ensures if Ignored(accepted[n]) then Picks(accepted, given, at, n + 1)
            else Picks(accepted, given + [Data(accepted[n])], at + [n], n + 1)
  {
  }

  lemma PicksNothing(accepted: seq<Payload>)
    ensures Picks(accepted, [], [], 0)
  {
  }

  lemma {:induction false} ShownPicks(ps: seq<Payload>, n: nat) returns (at: seq<nat>)
    requires n <= |ps|
    ensures Picks(ps, Shown(ps[..n]), at, n)
  {
    hide Picks, Shown, Ignored;
    if n == 0 {
      at := [];
      PicksNothing(ps);
      ShownNothing();
      assert ps[..0] == [];
    } else {
      var init, p := ps[..n - 1], ps[n - 1];
      at := ShownPicks(ps, n - 1);
      PicksNext(ps, Shown(init), at, n - 1);
      assert ps[..n] == init + [p];
      ShownMore(init, p);
      assert Shown(init) + [] == Shown(init);
      at := if Ignored(p) then at else at + [n - 1];
    }
  }

  /** What is given stops somewhere: it is what is shown of some prefix. */
  lemma {:induction false} ShownUpTo(ps: seq<Payload>, given: seq<Item>) returns (n: nat)
    requires given <= Shown(ps)
    ensures n <= |ps| && given == Shown(ps[..n])
  {
    assert ps[..|ps|] == ps;
    if given == Shown(ps) {
      n := |ps|;
    } else {
      var init := ps[..|ps| - 1];
      n := ShownUpTo(init, given);
      assert init[..n] == ps[..n];
    }
  }

  lemma TakenPicks(taken: seq<Item>, accepted: seq<Payload>)
    requires taken <= [SessionStart] + Shown(accepted) && taken != []
    ensures taken[0] == SessionStart && exists at: seq<nat>, n: nat :: Picks(accepted, taken[1..], at, n)
  {
    hide Picks, Shown;
    assert ([SessionStart] + Shown(accepted))[1..] == Shown(accepted);
    var n := ShownUpTo(accepted, taken[1..]);
    var at := ShownPicks(accepted, n);
  }

  /** No packet of the layer above can be taken for a KEXINIT or a NEWKEYS. */
  predicate Ordinary(x: Side)
  {
    forall i :: 0 <= i < |x.apps.accepted| ==> x.apps.accepted[i] != [] && x.apps.accepted[i][0] != 20 && x.apps.accepted[i][0] != 21
  }

  lemma ActOrdinary(x: Side, peer: seq<Record>, act: Action)
    requires Ordinary(x) && Enabled(x, peer, act)
    ensures Ordinary(Act(x, peer, act))
  {
  }

  lemma {:induction false} RunOrdinary(s: State, steps: seq<Step>)
    requires IsRun(s, steps) && Ordinary(s.x) && Ordinary(s.y)
    ensures Ordinary(After(s, steps).x) && Ordinary(After(s, steps).y)
    decreases |steps|
  {
    hide Ordinary, Act, Enabled;
    if steps != [] {
      if steps[0].byX {
        ActOrdinary(s.x, s.y.tr.log, steps[0].action);
      } else {
        ActOrdinary(s.y, s.x.tr.log, steps[0].action);
      }
      RunOrdinary(Next(s, steps[0]), steps[1..]);
    }
  }

  lemma ReachableOrdinary(s: State)
    requires Reachable(s)
    ensures Ordinary(s.x) && Ordinary(s.y)
  {
    hide IsRun, After;
    var steps: seq<Step> :| IsRun(START, steps) && After(START, steps) == s;
    RunOrdinary(START, steps);
  }

  /** What one side accepted for sending is what it put on the wire followed by what it still queues; the other
      side has received a prefix of it; and the layer above there has been given the session's start and
      then, in order, the packets of a prefix of it whose first octet is neither 2 nor 4. */
  lemma AppsInOrder(s: State)
    requires Reachable(s)
    ensures s.y.apps.taken != [] ==>
              s.y.apps.taken[0] == SessionStart && exists at: seq<nat>, n: nat :: Picks(s.x.apps.accepted, s.y.apps.taken[1..], at, n)
    ensures s.x.apps.taken != [] ==>
              s.x.apps.taken[0] == SessionStart && exists at: seq<nat>, n: nat :: Picks(s.y.apps.accepted, s.x.apps.taken[1..], at, n)
    ensures s.y.apps.taken <= [SessionStart] + Shown(s.x.apps.accepted)
    ensures s.x.apps.taken <= [SessionStart] + Shown(s.y.apps.accepted)
    ensures s.x.apps.accepted == AppsOf(s.x.tr.log) + s.x.apps.pending
    ensures s.y.apps.accepted == AppsOf(s.y.tr.log) + s.y.apps.pending
    ensures s.y.apps.received <= s.x.apps.accepted && s.x.apps.received <= s.y.apps.accepted
    ensures Ordinary(s.x) && Ordinary(s.y)
  {
    ReachableInv(s);
    ReachableOrdinary(s);
    hide WellFormed, InitsOf, DatasOf, AppsOf, SwitchesIn, Agreed, CiphersOk, Recorded, Reachable, Ordinary;
    PrefixOf(s.x.tr.log, s.y.tr.count);
    PrefixOf(s.y.tr.log, s.x.tr.count);
    hide Shown, Picks;
    TakenIsShown(s.x);
    TakenIsShown(s.y);
    ShownPrefix(s.y.apps.received, s.x.apps.accepted);
    ShownPrefix(s.x.apps.received, s.y.apps.accepted);
    if s.y.apps.taken != [] { TakenPicks(s.y.apps.taken, s.x.apps.accepted); }
    if s.x.apps.taken != [] { TakenPicks(s.x.apps.taken, s.y.apps.accepted); }
  }

  /** The two sides of some reachable state, in either order. */
  ghost predicate Connected(x: Side, y: Side)
  {
    Reachable(State(x, y)) || Reachable(State(y, x))
  }

  lemma ConnectedInv(x: Side, y: Side)
    requires Connected(x, y)
    ensures Inv(x, y)
  {
    hide Reachable, Holds;
    if Reachable(State(x, y)) {
      ReachableInv(State(x, y));
    } else {
      ReachableInv(State(y, x));
    }
  }

  lemma LogWellFormed(x: Side, y: Side)
    requires Connected(x, y)
    ensures WellFormed(x.tr.log)
  {
    ConnectedInv(x, y);
  }

  lemma {:induction false} NoSwitch(log: seq<Record>, i: nat, j: nat)
    requires i <= j <= |log| && forall k :: i <= k < j ==> !log[k].packet.NewKeys?
    ensures SwitchesIn(log[..j]) == SwitchesIn(log[..i])
  {
    if i < j {
      NoSwitch(log, i, j - 1);
      assert log[..j][..j - 1] == log[..j - 1];
    }
  }

  lemma InitAhead(log: seq<Record>, i: nat)
    requires WellFormed(log) && i < |log| && log[i].packet.KexInit?
    ensures |InitsOf(log[..i + 1])| == SwitchesIn(log[..i + 1]) + 1
  {
    NextFits(log, i);
    hide WellFormed, InitsOf, DatasOf, AppsOf, SwitchesIn;
    Snoc(log, i);
    Extend(log[..i], log[i]);
  }

  lemma OutsideExchange(log: seq<Record>, j: nat)
    requires WellFormed(log) && j < |log| && (log[j].packet.App? || log[j].packet.KexInit?)
    ensures |InitsOf(log[..j])| == SwitchesIn(log[..j])
  {
    NextFits(log, j);
  }

  lemma NewKeysBetween(log: seq<Record>, i: nat, j: nat)
    requires WellFormed(log) && i < j < |log|
    requires log[i].packet.KexInit? && (log[j].packet.App? || log[j].packet.KexInit?)
    ensures exists k :: i < k < j && log[k].packet.NewKeys?
  {
    hide WellFormed, InitsOf, DatasOf, AppsOf, SwitchesIn;
    InitAhead(log, i);
    OutsideExchange(log, j);
    assert log[..j][..i + 1] == log[..i + 1];
    PrefixOf(log[..j], i + 1);
    if forall k :: i < k < j ==> !log[k].packet.NewKeys? {
      NoSwitch(log, i + 1, j);
      assert false;
    }
  }

  /** Between a KEXINIT and the next application packet or KEXINIT of the same side lies a NEWKEYS. */
  lemma NoAppInsideExchange(x: Side, y: Side, i: nat, j: nat)
    requires Connected(x, y) && i < j < |x.tr.log|
    requires x.tr.log[i].packet.KexInit? && (x.tr.log[j].packet.App? || x.tr.log[j].packet.KexInit?)
    ensures exists k :: i < k < j && x.tr.log[k].packet.NewKeys?
  {
    hide Connected, WellFormed;
    LogWellFormed(x, y);
    NewKeysBetween(x.tr.log, i, j);
  }

  /** No application packet ever goes out in the clear; KEXINIT does exactly in the first exchange. */
  lemma NoAppInClear(x: Side, y: Side, i: nat)
    requires Connected(x, y) && i < |x.tr.log|
    ensures x.tr.log[i].packet.App? ==> x.tr.log[i].key.Keyed?
    ensures x.tr.log[i].key.Plain? <==> forall j :: 0 <= j < i ==> !x.tr.log[j].packet.NewKeys?
  {
    hide Connected, WellFormed, SwitchesIn, InitsOf, DatasOf;
    LogWellFormed(x, y);
    NextFits(x.tr.log, i);
    ClearUntilSwitch(x.tr.log, i);
    PlainIff(x, y, i);
  }

  lemma PlainIff(x: Side, y: Side, i: nat)
    requires Connected(x, y) && i < |x.tr.log|
    ensures x.tr.log[i].key.Plain? <==> SwitchesIn(x.tr.log[..i]) == 0
  {
    hide Connected, Served, Heard, Agreed, CiphersOk, Spoken, SwitchesIn;
    ConnectedInv(x, y);
    assert RecordOk(x.tr.log, i, x.past.exchanges);
  }

  lemma {:induction false} ClearUntilSwitch(log: seq<Record>, i: nat)
    requires i <= |log|
    ensures SwitchesIn(log[..i]) == 0 <==> forall j :: 0 <= j < i ==> !log[j].packet.NewKeys?
  {
    if i > 0 {
      ClearUntilSwitch(log, i - 1);
      assert log[..i][..i - 1] == log[..i - 1];
    }
  }

  /** Each direction holds at most one prepared cipher; preparing never blocks and NEWKEYS never
      lacks a cipher; readLoop and kexLoop never both read the transport; and readLoop never blocks
      handing over a KEXINIT. */
  lemma OneCipherOneReader(x: Side, y: Side)
    requires Connected(x, y)
    ensures |x.tr.reader.prepared| <= 1 && |x.tr.writer.prepared| <= 1
    ensures ReadyToPrepare(x) ==> CanPrepare(x)
    ensures CanSwitch(x) ==> |x.tr.writer.prepared| == 1
    ensures CanRead(x, y.tr.log) ==> !x.loops.kex.Exchanging?
    ensures x.loops.reader.Offering? ==> CanOffer(x)
  {
    ConnectedInv(x, y);
    hide Connected;
  }

  /** The session identifier is the hash of the first exchange, on both sides, for the whole connection. */
  lemma SessionIsFirst(s: State, steps: seq<Step>)
    requires Reachable(s) && IsRun(s, steps)
    ensures s.x.loops.session.Some? ==> After(s, steps).x.loops.session == s.x.loops.session
    ensures s.y.loops.session.Some? ==> After(s, steps).y.loops.session == s.y.loops.session
    ensures s.x.loops.session.Some? && s.y.loops.session.Some? ==> s.x.loops.session == s.y.loops.session
  {
    ReachableInv(s);
    RunKeepsInv(s, steps);
    hide WellFormed, InitsOf, DatasOf, AppsOf, SwitchesIn, CiphersOk, Recorded, Spoken, Heard;
    if s.x.loops.session.Some? && s.y.loops.session.Some? {
      SameExchange(s.x, s.y, 0);
    }
  }

  // ---- When an exchange is stuck ----

  /** An action of the two loops, not of the layer above. */
  predicate ByLoops(act: Action)
  {
    !act.AWrite? && !act.ATake?
  }

  /** No loop of the side can move by itself. */
  predicate Stuck(x: Side, peer: seq<Record>)
  {
    && !CanRead(x, peer) && !CanDeliver(x) && !CanOffer(x) && !CanResume(x) && !CanAnswer(x) && !CanInitiate(x) && !CanSpeak(x)
    && !CanListen(x, peer) && !CanPrepare(x) && !CanSwitch(x) && !CanComplete(x, peer) && !CanFinish(x) && !CanFlush(x)
  }

  /** readLoop is putting a packet on a full channel, and kexLoop has neither a KEXINIT nor a request to serve. */
  predicate Jammed(x: Side)
  {
    x.loops.reader.Delivering? && |x.apps.incoming| == CHAN_SIZE && x.loops.kex.Collecting? && !x.loops.requestKex
  }

  /** Everything was read, kexLoop has no request to serve, and what comes next is for the peer to send. */
  predicate Awaiting(x: Side, peer: seq<Record>)
  {
    var k := x.loops.kex;
    && x.tr.count == |peer|
    && ((k.Collecting? && x.loops.reader.Reading? && !x.loops.requestKex)
        || (k.Exchanging? && k.stage.Switched?)
        || (k.Exchanging? && k.stage.Talking? && k.theirs.None? && (x.isClient ==> k.mine.Some?)))
  }

  lemma StuckIff(x: Side, y: Side)
    requires Inv(x, y)
    ensures Stuck(x, y.tr.log) <==> Jammed(x) || Awaiting(x, y.tr.log)
  {
    hide WellFormed, InitsOf, DatasOf, AppsOf, SwitchesIn, Agreed, Recorded, Covers, Shown, Given;
  }

  /** Counting KEXINITs, messages and switches, two sides that await each other are outside an exchange. */
  lemma NotBothAwaiting(x: Side, y: Side)
    requires Inv(x, y) && Awaiting(x, y.tr.log) && Awaiting(y, x.tr.log)
    ensures x.loops.sentInit.None? && y.loops.sentInit.None?
  {
    hide WellFormed, InitsOf, DatasOf, AppsOf, SwitchesIn, Agreed, Recorded, CiphersOk, Served;
    OneSide(x, y);
    assert y.tr.log[..x.tr.count] == y.tr.log && x.tr.log[..y.tr.count] == x.tr.log;
  }

  lemma Moving(x: Side, peer: seq<Record>) returns (act: Action)
    requires !Stuck(x, peer)
    ensures ByLoops(act) && Enabled(x, peer, act)
  {
    act :=
      if CanRead(x, peer) then ARead(false)
      else if CanDeliver(x) then ADeliver
      else if CanOffer(x) then AOffer
      else if CanResume(x) then AResume
      else if CanAnswer(x) then AAnswer(0)
      else if CanInitiate(x) then AInitiate(0)
      else if CanSpeak(x) then ASpeak(0)
      else if CanListen(x, peer) then AListen
      else if CanPrepare(x) then APrepare
      else if CanSwitch(x) then ASwitch
      else if CanComplete(x, peer) then AComplete
      else if CanFinish(x) then AFinish
      else AFlush;
  }

  ghost predicate LoopsCanMove(s: State)
  {
    exists step: Step :: ByLoops(step.action) && CanStep(s, step)
  }

  lemma MoveIffNotStuck(s: State)
    ensures LoopsCanMove(s) <==> !(Stuck(s.x, s.y.tr.log) && Stuck(s.y, s.x.tr.log))
  {
    if !Stuck(s.x, s.y.tr.log) {
      var act := Moving(s.x, s.y.tr.log);
      assert CanStep(s, Step(true, act));
    } else if !Stuck(s.y, s.x.tr.log) {
      var act := Moving(s.y, s.x.tr.log);
      assert CanStep(s, Step(false, act));
    }
  }

  /** While either side has sent a KEXINIT whose exchange is not over, the loops are stuck exactly when one side
      is jammed on its full incoming channel and the other is jammed too or has nothing left to read. */
  lemma ExchangeStuckIff(s: State)
    requires Reachable(s) && (s.x.loops.sentInit.Some? || s.y.loops.sentInit.Some?)
    ensures !LoopsCanMove(s) <==>
            || (Jammed(s.x) && (Jammed(s.y) || Awaiting(s.y, s.x.tr.log)))
            || (Jammed(s.y) && (Jammed(s.x) || Awaiting(s.x, s.y.tr.log)))
  {
    ReachableInv(s);
    hide Holds, Reachable, Stuck, Jammed, Awaiting, LoopsCanMove;
    OneSide(s.x, s.y);
    MoveIffNotStuck(s);
    StuckIff(s.x, s.y);
    StuckIff(s.y, s.x);
    if Awaiting(s.x, s.y.tr.log) && Awaiting(s.y, s.x.tr.log) {
      NotBothAwaiting(s.x, s.y);
    }
  }

  /** So an exchange under way always goes on as long as both layers above keep reading: either a loop can move,
      or some layer has a packet to take and taking it lets its readLoop move. */
  lemma ExchangeMovesWhenServed(s: State)
    requires Reachable(s) && (s.x.loops.sentInit.Some? || s.y.loops.sentInit.Some?) && !LoopsCanMove(s)
    ensures (CanTake(s.x) && CanDeliver(Take(s.x))) || (CanTake(s.y) && CanDeliver(Take(s.y)))
  {
    ExchangeStuckIff(s);
    ReachableInv(s);
    hide LoopsCanMove, Reachable, Spoken, Heard, Agreed, CiphersOk, Recorded, Awaiting, Shown;
    if Jammed(s.x) {
      TakeUnjams(s.x);
    } else {
      TakeUnjams(s.y);
    }
  }

  lemma TakeUnjams(x: Side)
    requires Served(x) && Jammed(x)
    ensures CanTake(x) && CanDeliver(Take(x))
  {
    hide Shown;
    ShownNothing();
    assert Given(x)[0] == (if x.apps.taken == [] then x.apps.incoming[0] else x.apps.taken[0]);
  }

  lemma {:induction false} RunExtend(s: State, steps: seq<Step>, step: Step)
    requires IsRun(s, steps) && CanStep(After(s, steps), step)
    ensures IsRun(s, steps + [step]) && After(s, steps + [step]) == Next(After(s, steps), step)
    decreases |steps|
  {
    hide Act, Enabled;
    var more := steps + [step];
    if steps == [] {
      assert more[1..] == [];
    } else {
      assert more[0] == steps[0] && more[1..] == steps[1..] + [step];
      RunExtend(Next(s, steps[0]), steps[1..], step);
    }
  }

  lemma ReachableStep(s: State, step: Step)
    requires Reachable(s) && CanStep(s, step)
    ensures Reachable(Next(s, step))
  {
    hide Act, Enabled, IsRun, After;
    var steps: seq<Step> :| IsRun(START, steps) && After(START, steps) == s;
    RunExtend(START, steps, step);
  }
}
