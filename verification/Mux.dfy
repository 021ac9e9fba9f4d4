/** The channel registry and the loop that dispatches packets to channels. */
module Mux {
  import opened Bytes
  import opened Options

  /** Channels are named by the order in which they were made. */
  type Chan = nat

  // ---- The registry ----

  function FreeSlot(chans: seq<Option<Chan>>): (i: nat)
    ensures i <= |chans| && (i < |chans| ==> chans[i].None?)
    ensures forall j :: 0 <= j < i ==> chans[j].Some?
  {
    if chans == [] || chans[0].None? then 0 else 1 + FreeSlot(chans[1..])
  }

  function Added(chans: seq<Option<Chan>>, c: Chan): seq<Option<Chan>>
  {
    var i := FreeSlot(chans);
    if i < |chans| then chans[i := Some(c)] else chans + [Some(c)]
  }

  /** Identifiers are indices shifted by the offset, in 32 bits. */
  function IdAt(offset: nat, i: nat): nat
  {
    (i + offset) % U32_MODULUS
  }

  function Slot(offset: nat, id: nat): nat
  {
    (id + U32_MODULUS - offset % U32_MODULUS) % U32_MODULUS
  }

  /** The number of slots is compared in 32 bits. */
  predicate InRange(chans: seq<Option<Chan>>, i: nat)
  {
    i < |chans| % U32_MODULUS
  }

  function Get(chans: seq<Option<Chan>>, offset: nat, id: nat): Option<Chan>
  {
    var i := Slot(offset, id);
    if InRange(chans, i) then chans[i] else None
  }

  function Removed(chans: seq<Option<Chan>>, offset: nat, id: nat): (r: seq<Option<Chan>>)
    ensures |r| == |chans|
  {
    var i := Slot(offset, id);
    if InRange(chans, i) then chans[i := None] else chans
  }

  function Live(chans: seq<Option<Chan>>): seq<Chan>
  {
    if chans == [] then []
    else (if chans[0].Some? then [chans[0].value] else []) + Live(chans[1..])
  }

  lemma SlotOfId(offset: nat, i: nat, id: nat)
    requires i < U32_MODULUS && id < U32_MODULUS
    ensures Slot(offset, IdAt(offset, i)) == i
    ensures IdAt(offset, Slot(offset, id)) == id
  {
    var o := offset % U32_MODULUS;
    ShiftBack(i, o);
    ShiftBack(id, o);
    ReduceOffset(i, offset);
    ReduceOffset(Slot(offset, id), offset);
  }

  lemma ReduceOffset(i: nat, offset: nat)
    ensures IdAt(offset, i) == (i + offset % U32_MODULUS) % U32_MODULUS
  {
  }

  lemma ShiftBack(i: nat, o: nat)
    requires i < U32_MODULUS && o < U32_MODULUS
    ensures ((i + o) % U32_MODULUS + U32_MODULUS - o) % U32_MODULUS == i
    ensures ((i + U32_MODULUS - o) % U32_MODULUS + o) % U32_MODULUS == i
  {
    assert (i + o) % U32_MODULUS == if i + o < U32_MODULUS then i + o else i + o - U32_MODULUS;
    assert (i + U32_MODULUS - o) % U32_MODULUS == if i < o then i + U32_MODULUS - o else i - o;
  }

  /** The limit is exact: with 2^32 slots no identifier finds anything, and one slot more gives two slots the
      same identifier. */
  lemma TooManySlots(chans: seq<Option<Chan>>, offset: nat, id: nat)
    requires |chans| == U32_MODULUS
    ensures Get(chans, offset, id).None? && Removed(chans, offset, id) == chans
    ensures IdAt(offset, |chans|) == IdAt(offset, 0)
  {
    assert (U32_MODULUS + offset) % U32_MODULUS == offset % U32_MODULUS;
  }

  class ChanList {
    var chans: seq<Option<Chan>>
    const offset: nat

    constructor (off: nat)
      ensures chans == [] && offset == off
    {
      chans, offset := [], off;
    }

    /** Takes the first free slot. */
    method Add(c: Chan) returns (id: nat)
      modifies this
      ensures chans == Added(old(chans), c) && id == IdAt(offset, FreeSlot(old(chans)))
    {
      for i := 0 to |chans|
        invariant chans == old(chans) && forall j :: 0 <= j < i ==> chans[j].Some?
      {
        if chans[i].None? {
          FirstFree(chans, i);
          chans := chans[i := Some(c)];
          return IdAt(offset, i);
        }
      }
      FirstFree(chans, |chans|);
      chans := chans + [Some(c)];
      id := IdAt(offset, |chans| - 1);
    }

    method GetChan(id: nat) returns (r: Option<Chan>)
      ensures r == Get(chans, offset, id)
    {
      var i := Slot(offset, id);
      if InRange(chans, i) {
        return chans[i];
      }
      return None;
    }

    method Remove(id: nat)
      modifies this
      ensures chans == Removed(old(chans), offset, id)
    {
      var i := Slot(offset, id);
      if InRange(chans, i) {
        chans := chans[i := None];
      }
    }

    method DropAll() returns (r: seq<Chan>)
      modifies this
      ensures chans == [] && r == Live(old(chans))
    {
      r := [];
      assert chans[0..] == chans;
      for i := 0 to |chans|
        invariant chans == old(chans) && r + Live(chans[i..]) == Live(chans)
      {
        assert chans[i..][1..] == chans[i + 1..];
        if chans[i].Some? {
          r := r + [chans[i].value];
        }
      }
      assert r + [] == r;
      chans := [];
    }
  }

  lemma {:induction false} FirstFree(chans: seq<Option<Chan>>, i: nat)
    requires i <= |chans| && (forall j :: 0 <= j < i ==> chans[j].Some?) && (i < |chans| ==> chans[i].None?)
    ensures FreeSlot(chans) == i
  {
  }

  // ---- The loop as a machine ----

  /** Where the loop stands: between packets, or part way through closing a channel, answering a failed open,
      or closing what was left when it ended. */
  datatype Phase = Reading | Closing(ch: Chan) | Answering(ch: Chan) | Draining(list: seq<Chan>) | Ended

  /** What is done to a channel's two queues. */
  datatype Effect = Closed(ch: Chan) | SentMsg(ch: Chan) | SentReply(ch: Chan) | SentRequest(ch: Chan)

  /** The fields of the channels: local identifier, direction, whether an open was answered, and, for the
      record, whether the answer was a failure. */
  datatype Info = Info(ids: map<Chan, nat>, inbound: set<Chan>, decided: set<Chan>, refused: set<Chan>)

  datatype State = State(chans: seq<Option<Chan>>, offset: nat, next: Chan, info: Info, phase: Phase, trace: seq<Effect>)

  datatype Kind = Data(fault: bool) | CloseMsg | EofMsg | OpenFailure | OpenConfirm(valid: bool) | Adjust(fault: bool)
                | RequestMsg | OtherMsg | Undecodable

  /** `halted` says that the wait for room in a queue ended by a stop request. */
  datatype Step =
    | OpenLocal
    | ReadFails(timeout: bool)
    | PeerOpens(valid: bool, halted: bool)
    | Global(fault: bool)
    | ShortPacket
    | ForChannel(id: nat, kind: Kind, halted: bool)
    | Resume(halted: bool)

  function Init(offset: nat): State
  {
    State([], offset, 0, Info(map[], {}, {}, {}), Reading, [])
  }

  predicate HasRoom(chans: seq<Option<Chan>>)
  {
    FreeSlot(chans) < U32_MODULUS - 1
  }

  function NewChannel(s: State, inbound: bool): State
  {
    var c := s.next;
    s.(chans := Added(s.chans, c), next := c + 1,
       info := Info(s.info.ids[c := IdAt(s.offset, FreeSlot(s.chans))],
                    if inbound then s.info.inbound + {c} else s.info.inbound, s.info.decided, s.info.refused))
  }

  /** The loop ends on an error: all channels are forgotten and then closed one by one. */
  function Fail(s: State): State
  {
    s.(chans := [], phase := Draining(Live(s.chans)))
  }

  function Put(s: State, e: Effect): State
  {
    s.(trace := s.trace + [e])
  }

  function PutUnless(s: State, halted: bool, e: Effect): State
  {
    if halted then Fail(s) else Put(s, e)
  }

  function IdOf(s: State, c: Chan): nat
  {
    if c in s.info.ids then s.info.ids[c] else 0
  }

  function Decided(s: State, c: Chan): State
  {
    s.(info := s.info.(decided := s.info.decided + {c}))
  }

  function Refused(s: State, c: Chan): State
  {
    s.(info := s.info.(decided := s.info.decided + {c}, refused := s.info.refused + {c}))
  }

  /** Response messages are refused on inbound channels and the second time. */
  predicate MayDecide(s: State, c: Chan)
  {
    c !in s.info.inbound && c !in s.info.decided
  }

  function HandlePacket(s: State, c: Chan, id: nat, kind: Kind, halted: bool): State
  {
    match kind
    case Data(fault) => if fault then Fail(s) else s
    case CloseMsg => s.(chans := Removed(s.chans, s.offset, IdOf(s, c)), phase := Closing(c))
    case EofMsg => s
    case OpenFailure =>
      if !MayDecide(s, c) then Fail(s)
      else Refused(s, c).(chans := Removed(s.chans, s.offset, id), phase := Answering(c))
    case OpenConfirm(valid) =>
      if !MayDecide(s, c) then Fail(s)
      else if !valid then Fail(Decided(s, c))
      else PutUnless(Decided(s, c), halted, SentReply(c))
    case Adjust(fault) => if fault then Fail(s) else s
    case RequestMsg => PutUnless(s, halted, SentRequest(c))
    case OtherMsg => PutUnless(s, halted, SentMsg(c))
    case Undecodable => Fail(s)
  }

  /** A new slot is made only while there are fewer than 2^32 - 1; slots that are free again are reused. A step
      that does not apply changes nothing. */
  function Next(s: State, step: Step): State
  {
    if step.OpenLocal? then if HasRoom(s.chans) then NewChannel(s, false) else s
    else
      match s.phase
      case Ended => s
      case Reading =>
        (match step
         case ReadFails(timeout) => if timeout then s else Fail(s)
         case PeerOpens(valid, halted) =>
           if !valid then (if halted then Fail(s) else s)
           else if !HasRoom(s.chans) then s
           else if halted then Fail(NewChannel(s, true)) else NewChannel(s, true)
         case Global(fault) => if fault then Fail(s) else s
         case ShortPacket => Fail(s)
         case ForChannel(id, kind, halted) =>
           (match Get(s.chans, s.offset, id)
            case None => Fail(s)
            case Some(c) => HandlePacket(s, c, id, kind, halted))
         case _ => s)
      case Closing(c) => if step.Resume? then Put(s.(phase := Reading), Closed(c)) else s
      case Answering(c) => if step.Resume? then PutUnless(s.(phase := Reading), step.halted, SentReply(c)) else s
      case Draining(list) =>
        if !step.Resume? then s
        else if list == [] then s.(phase := Ended)
        else Put(s.(phase := Draining(list[1..])), Closed(list[0]))
  }

  function Run(s: State, steps: seq<Step>): State
    decreases |steps|
  {
    if steps == [] then s else Next(Run(s, steps[..|steps| - 1]), steps[|steps| - 1])
  }

  // ---- What every run keeps ----

  /** Nothing is done to a channel's queues after they are closed; in particular they are closed once. */
  ghost predicate QueuesRespected(trace: seq<Effect>)
  {
    forall i, j :: 0 <= i < j < |trace| && trace[i].Closed? ==> trace[j].ch != trace[i].ch
  }

  /** An open is answered at most once, and only if this side made it. */
  ghost predicate AnsweredOnce(trace: seq<Effect>, inbound: set<Chan>)
  {
    && (forall i, j :: 0 <= i < j < |trace| && trace[i].SentReply? && trace[j].SentReply? ==> trace[j].ch != trace[i].ch)
    && (forall i :: 0 <= i < |trace| && trace[i].SentReply? ==> trace[i].ch !in inbound)
  }

  ghost predicate IsLive(s: State, c: Chan)
  {
    Some(c) in s.chans
  }

  /** A channel out of the registry whose queues are still the loop's to use. */
  ghost predicate InHand(s: State, c: Chan)
  {
    match s.phase
    case Closing(d) => c == d
    case Answering(d) => c == d
    case Draining(list) => c in list
    case _ => false
  }

  ghost predicate Distinct(list: seq<Chan>)
  {
    forall i, j :: 0 <= i < j < |list| ==> list[i] != list[j]
  }

  /** Slot by slot: the recorded identifier is the slot's, and no channel has two slots. */
  ghost predicate RegistryInv(chans: seq<Option<Chan>>, offset: nat, ids: map<Chan, nat>, next: Chan)
  {
    && |chans| < U32_MODULUS
    && (forall c: Chan :: c in ids <==> 0 <= c < next)
    && (forall i :: 0 <= i < |chans| && chans[i].Some? ==> chans[i].value < next && ids[chans[i].value] == IdAt(offset, i))
    && (forall i, j :: 0 <= i < j < |chans| && chans[i].Some? && chans[j].Some? ==> chans[i].value != chans[j].value)
  }

  ghost predicate HandInv(s: State)
  {
    && (forall c: Chan :: InHand(s, c) ==> c < s.next && !IsLive(s, c) && Closed(c) !in s.trace)
    && (s.phase.Draining? ==> Distinct(s.phase.list))
    && (s.phase.Answering? ==>
          && s.phase.ch !in s.info.inbound && s.phase.ch in s.info.decided && s.phase.ch in s.info.refused
          && SentReply(s.phase.ch) !in s.trace)
  }

  ghost predicate TraceInv(s: State)
  {
    && QueuesRespected(s.trace) && AnsweredOnce(s.trace, s.info.inbound)
    && (forall c: Chan :: IsLive(s, c) ==> Closed(c) !in s.trace)
    && (forall e :: e in s.trace ==> e.ch < s.next)
    && (forall c: Chan :: SentReply(c) in s.trace ==> c in s.info.decided)
    && (forall c: Chan :: c in s.info.inbound || c in s.info.decided ==> c < s.next)
  }

  ghost predicate Inv(s: State)
  {
    RegistryInv(s.chans, s.offset, s.info.ids, s.next) && HandInv(s) && TraceInv(s)
  }

  lemma AddedMembers(chans: seq<Option<Chan>>, n: Chan, c: Chan)
    ensures Some(c) in Added(chans, n) <==> Some(c) in chans || c == n
  {
    var i := FreeSlot(chans);
    var r := Added(chans, n);
    assert r[i] == Some(n);
    if Some(c) in chans {
      var j :| 0 <= j < |chans| && chans[j] == Some(c);
      assert r[j] == Some(c);
    }
  }

  lemma AddKeepsRegistry(chans: seq<Option<Chan>>, offset: nat, ids: map<Chan, nat>, next: Chan)
    requires RegistryInv(chans, offset, ids, next) && HasRoom(chans)
    ensures RegistryInv(Added(chans, next), offset, ids[next := IdAt(offset, FreeSlot(chans))], next + 1)
  {
    hide IdAt;
    var k := FreeSlot(chans);
    var r := Added(chans, next);
    assert forall i :: 0 <= i < |r| && i != k ==> r[i] == chans[i];
  }

  lemma GetIsLive(chans: seq<Option<Chan>>, offset: nat, ids: map<Chan, nat>, next: Chan, id: nat)
    requires RegistryInv(chans, offset, ids, next) && id < U32_MODULUS && Get(chans, offset, id).Some?
    ensures var c := Get(chans, offset, id).value;
            c < next && Some(c) in chans && c in ids && ids[c] == id
  {
    SlotOfId(offset, 0, id);
  }

  lemma RemoveKeepsRegistry(chans: seq<Option<Chan>>, offset: nat, ids: map<Chan, nat>, next: Chan, id: nat)
    requires RegistryInv(chans, offset, ids, next)
    ensures RegistryInv(Removed(chans, offset, id), offset, ids, next)
  {
    hide IdAt, Slot;
  }

  lemma RemovedMembers(chans: seq<Option<Chan>>, offset: nat, ids: map<Chan, nat>, next: Chan, id: nat, c: Chan)
    requires RegistryInv(chans, offset, ids, next) && Get(chans, offset, id).Some?
    ensures Some(c) in Removed(chans, offset, id) <==> Some(c) in chans && Some(c) != Get(chans, offset, id)
  {
    hide IdAt, Slot;
    var k := Slot(offset, id);
    var r := Removed(chans, offset, id);
    if Some(c) in chans && Some(c) != chans[k] {
      var j :| 0 <= j < |chans| && chans[j] == Some(c);
      assert r[j] == Some(c);
    }
  }

  lemma {:induction false} LiveMembers(chans: seq<Option<Chan>>, c: Chan)
    ensures c in Live(chans) <==> Some(c) in chans
  {
    if chans != [] {
      LiveMembers(chans[1..], c);
      assert chans == [chans[0]] + chans[1..];
    }
  }

  lemma {:induction false} LiveDistinct(chans: seq<Option<Chan>>)
    requires forall i, j :: 0 <= i < j < |chans| && chans[i].Some? && chans[j].Some? ==> chans[i].value != chans[j].value
    ensures Distinct(Live(chans))
  {
    if chans != [] {
      var rest := chans[1..];
      LiveDistinct(rest);
      if chans[0].Some? {
        LiveMembers(rest, chans[0].value);
        assert Some(chans[0].value) !in rest;
        assert chans[0].value !in Live(rest);
      }
    }
  }

  lemma FailKeeps(s: State)
    requires RegistryInv(s.chans, s.offset, s.info.ids, s.next) && TraceInv(s)
    ensures Inv(Fail(s))
  {
    hide IdAt, QueuesRespected, AnsweredOnce;
    LiveDistinct(s.chans);
    forall c: Chan
      ensures c in Live(s.chans) <==> Some(c) in s.chans
    {
      LiveMembers(s.chans, c);
    }
    forall c: Chan | IsLive(s, c)
      ensures c < s.next
    {
      var i :| 0 <= i < |s.chans| && s.chans[i] == Some(c);
    }
    assert s.trace == Fail(s).trace;
  }

  lemma PutKeepsTrace(s: State, e: Effect)
    requires TraceInv(s) && e.ch < s.next && Closed(e.ch) !in s.trace
    requires e.Closed? ==> !IsLive(s, e.ch)
    requires e.SentReply? ==> e.ch !in s.info.inbound && e.ch in s.info.decided && e !in s.trace
    ensures TraceInv(Put(s, e))
  {
    var r := Put(s, e);
    var n := |s.trace|;
    assert forall i :: 0 <= i < n ==> r.trace[i] == s.trace[i];
    forall i, j | 0 <= i < j < |r.trace| && r.trace[i].Closed?
      ensures r.trace[j].ch != r.trace[i].ch
    {
      if j == n {
        assert s.trace[i] in s.trace;
      }
    }
    forall i, j | 0 <= i < j < |r.trace| && r.trace[i].SentReply? && r.trace[j].SentReply?
      ensures r.trace[j].ch != r.trace[i].ch
    {
      if j == n {
        assert s.trace[i] in s.trace;
      }
    }
    forall c: Chan | IsLive(r, c)
      ensures Closed(c) !in r.trace
    {
      assert IsLive(s, c);
    }
  }

  lemma NewChannelKeeps(s: State, inbound: bool)
    requires Inv(s) && HasRoom(s.chans)
    ensures Inv(NewChannel(s, inbound))
  {
    hide IdAt, FreeSlot, Added, QueuesRespected;
    var r := NewChannel(s, inbound);
    AddKeepsRegistry(s.chans, s.offset, s.info.ids, s.next);
    forall c: Chan
      ensures IsLive(r, c) <==> IsLive(s, c) || c == s.next
    {
      AddedMembers(s.chans, s.next, c);
    }
    assert Closed(s.next).ch == s.next;
    assert forall c: Chan :: InHand(r, c) <==> InHand(s, c);
    assert AnsweredOnce(r.trace, r.info.inbound);
  }

  lemma DecidedKeepsTrace(s: State, c: Chan)
    requires TraceInv(s) && c < s.next
    ensures TraceInv(Decided(s, c)) && TraceInv(Refused(s, c))
  {
    hide QueuesRespected, AnsweredOnce;
    assert forall d: Chan :: IsLive(Decided(s, c), d) <==> IsLive(s, d);
    assert forall d: Chan :: IsLive(Refused(s, c), d) <==> IsLive(s, d);
  }

  lemma RemoveKeepsTrace(s: State, id: nat, phase: Phase)
    requires TraceInv(s) && RegistryInv(s.chans, s.offset, s.info.ids, s.next) && Get(s.chans, s.offset, id).Some?
    ensures var c := Get(s.chans, s.offset, id).value;
            var r := s.(chans := Removed(s.chans, s.offset, id), phase := phase);
            TraceInv(r) && RegistryInv(r.chans, r.offset, r.info.ids, r.next) && !IsLive(r, c)
  {
    hide QueuesRespected, AnsweredOnce, RegistryInv, Removed, Get;
    var r := s.(chans := Removed(s.chans, s.offset, id), phase := phase);
    RemoveKeepsRegistry(s.chans, s.offset, s.info.ids, s.next, id);
    forall c: Chan
      ensures IsLive(r, c) <==> IsLive(s, c) && Some(c) != Get(s.chans, s.offset, id)
    {
      RemovedMembers(s.chans, s.offset, s.info.ids, s.next, id, c);
    }
  }

  lemma SentKeeps(s: State, halted: bool, e: Effect)
    requires RegistryInv(s.chans, s.offset, s.info.ids, s.next) && TraceInv(s) && s.phase.Reading? && !e.Closed?
    requires e.ch < s.next && Closed(e.ch) !in s.trace
    requires e.SentReply? ==> e.ch !in s.info.inbound && e.ch in s.info.decided && e !in s.trace
    ensures Inv(PutUnless(s, halted, e))
  {
    hide RegistryInv, TraceInv;
    if halted {
      FailKeeps(s);
    } else {
      PutKeepsTrace(s, e);
    }
  }

  lemma HandleKeeps(s: State, c: Chan, id: nat, kind: Kind, halted: bool)
    requires Inv(s) && s.phase.Reading? && id < U32_MODULUS && Get(s.chans, s.offset, id) == Some(c)
    ensures Inv(HandlePacket(s, c, id, kind, halted))
  {
    GetIsLive(s.chans, s.offset, s.info.ids, s.next, id);
    hide RegistryInv, Fail, Removed, Get, QueuesRespected, AnsweredOnce;
    assert IsLive(s, c) && Closed(c) !in s.trace;
    FailKeeps(s);
    DecidedKeepsTrace(s, c);
    match kind
    case CloseMsg =>
      RemoveKeepsTrace(s, id, Closing(c));
    case OpenFailure =>
      if MayDecide(s, c) {
        RemoveKeepsTrace(Refused(s, c), id, Answering(c));
      }
    case OpenConfirm(valid) =>
      if MayDecide(s, c) {
        FailKeeps(Decided(s, c));
        SentKeeps(Decided(s, c), halted, SentReply(c));
      }
    case RequestMsg =>
      SentKeeps(s, halted, SentRequest(c));
    case OtherMsg =>
      SentKeeps(s, halted, SentMsg(c));
    case _ =>
  }

  lemma DrainKeeps(s: State)
    requires Inv(s) && s.phase.Draining? && s.phase.list != []
    ensures Inv(Put(s.(phase := Draining(s.phase.list[1..])), Closed(s.phase.list[0])))
  {
    hide RegistryInv, QueuesRespected, AnsweredOnce;
    var first, rest := s.phase.list[0], s.phase.list[1..];
    assert InHand(s, first);
    var r := s.(phase := Draining(rest));
    PutKeepsTrace(r, Closed(first));
    var p := Put(r, Closed(first));
    forall c: Chan | InHand(p, c)
      ensures c < s.next && !IsLive(p, c) && Closed(c) !in p.trace
    {
      var i :| 0 <= i < |rest| && rest[i] == c;
      assert s.phase.list[i + 1] == c && InHand(s, c);
    }
    assert Distinct(rest);
  }

  lemma ResumeKeeps(s: State, halted: bool)
    requires Inv(s) && !s.phase.Reading?
    ensures Inv(Next(s, Resume(halted)))
  {
    hide RegistryInv, Fail, QueuesRespected, AnsweredOnce;
    match s.phase
    case Closing(c) =>
      assert InHand(s, c);
      PutKeepsTrace(s.(phase := Reading), Closed(c));
    case Answering(c) =>
      assert InHand(s, c);
      SentKeeps(s.(phase := Reading), halted, SentReply(c));
    case Draining(list) =>
      if list != [] {
        DrainKeeps(s);
      }
    case Ended =>
  }

  lemma NextKeeps(s: State, step: Step)
    requires Inv(s) && (step.ForChannel? ==> step.id < U32_MODULUS)
    ensures Inv(Next(s, step))
  {
    hide Inv, Fail, NewChannel, HandlePacket, RegistryInv, TraceInv;
    if HasRoom(s.chans) {
      NewChannelKeeps(s, step.PeerOpens?);
      InvParts(NewChannel(s, step.PeerOpens?));
      FailKeeps(NewChannel(s, step.PeerOpens?));
    }
    InvParts(s);
    FailKeeps(s);
    if step.OpenLocal? {
    } else if s.phase.Reading? {
      if step.ForChannel? && Get(s.chans, s.offset, step.id).Some? {
        HandleKeeps(s, Get(s.chans, s.offset, step.id).value, step.id, step.kind, step.halted);
      }
    } else if step.Resume? {
      ResumeKeeps(s, step.halted);
    }
  }

  lemma InvParts(s: State)
    requires Inv(s)
    ensures RegistryInv(s.chans, s.offset, s.info.ids, s.next) && TraceInv(s)
  {
  }

  /** Identifiers in packets are 32 bits wide. */
  predicate Words(steps: seq<Step>)
  {
    forall i :: 0 <= i < |steps| && steps[i].ForChannel? ==> steps[i].id < U32_MODULUS
  }

  lemma InitKeeps(offset: nat)
    ensures Inv(Init(offset))
  {
  }

  lemma {:induction false} RunKeeps(offset: nat, steps: seq<Step>)
    requires Words(steps)
    ensures Inv(Run(Init(offset), steps))
    decreases |steps|
  {
    if steps == [] {
      InitKeeps(offset);
    } else {
      hide Inv, Next, Init;
      RunKeeps(offset, steps[..|steps| - 1]);
      NextKeeps(Run(Init(offset), steps[..|steps| - 1]), steps[|steps| - 1]);
    }
  }

  // ---- No channel is lost ----

  /** In the registry, in the loop's hands, closed, or refused by the peer. */
  ghost predicate Accounted(s: State, c: Chan)
  {
    IsLive(s, c) || InHand(s, c) || Closed(c) in s.trace || c in s.info.refused
  }

  ghost predicate AllAccounted(s: State)
  {
    forall c: Chan :: c < s.next ==> Accounted(s, c)
  }

  lemma FailAccounts(s: State)
    requires AllAccounted(s) && s.phase.Reading?
    ensures AllAccounted(Fail(s))
  {
    forall c: Chan | c < s.next
      ensures Accounted(Fail(s), c)
    {
      assert Accounted(s, c);
      LiveMembers(s.chans, c);
    }
  }

  lemma PutAccounts(s: State, halted: bool, e: Effect)
    requires AllAccounted(s) && s.phase.Reading?
    ensures AllAccounted(PutUnless(s, halted, e))
  {
    if halted {
      FailAccounts(s);
    } else {
      forall c: Chan | c < s.next
        ensures Accounted(Put(s, e), c)
      {
        assert Accounted(s, c);
      }
    }
  }

  lemma NewChannelAccounts(s: State, inbound: bool)
    requires AllAccounted(s)
    ensures AllAccounted(NewChannel(s, inbound))
  {
    hide Added, FreeSlot, IdAt;
    forall c: Chan | c <= s.next
      ensures Accounted(NewChannel(s, inbound), c)
    {
      AddedMembers(s.chans, s.next, c);
      assert c < s.next ==> Accounted(s, c);
    }
  }

  lemma HandleAccounts(s: State, c: Chan, id: nat, kind: Kind, halted: bool)
    requires Inv(s) && AllAccounted(s) && s.phase.Reading? && id < U32_MODULUS && Get(s.chans, s.offset, id) == Some(c)
    ensures AllAccounted(HandlePacket(s, c, id, kind, halted))
  {
    GetIsLive(s.chans, s.offset, s.info.ids, s.next, id);
    hide RegistryInv, HandInv, TraceInv, Removed, Get, Accounted;
    FailAccounts(s);
    DecidedAccounts(s, c);
    match kind
    case CloseMsg => TakenAccounts(s, c, id, Closing(c));
    case OpenFailure => TakenAccounts(Refused(s, c), c, id, Answering(c));
    case OpenConfirm(_) =>
      FailAccounts(Decided(s, c));
      PutAccounts(Decided(s, c), halted, SentReply(c));
    case RequestMsg => PutAccounts(s, halted, SentRequest(c));
    case OtherMsg => PutAccounts(s, halted, SentMsg(c));
    case _ =>
  }

  lemma DecidedAccounts(s: State, c: Chan)
    requires AllAccounted(s)
    ensures AllAccounted(Decided(s, c)) && AllAccounted(Refused(s, c))
  {
    forall d: Chan | d < s.next
      ensures Accounted(Decided(s, c), d) && Accounted(Refused(s, c), d)
    {
      assert Accounted(s, d);
    }
  }

  lemma TakenAccounts(s: State, c: Chan, id: nat, phase: Phase)
    requires RegistryInv(s.chans, s.offset, s.info.ids, s.next) && AllAccounted(s) && s.phase.Reading?
    requires Get(s.chans, s.offset, id) == Some(c) && (phase == Closing(c) || phase == Answering(c))
    ensures AllAccounted(s.(chans := Removed(s.chans, s.offset, id), phase := phase))
  {
    hide RegistryInv, Removed, Get;
    var r := s.(chans := Removed(s.chans, s.offset, id), phase := phase);
    forall d: Chan | d < s.next
      ensures Accounted(r, d)
    {
      assert Accounted(s, d);
      RemovedMembers(s.chans, s.offset, s.info.ids, s.next, id, d);
    }
  }

  lemma ResumeAccounts(s: State, halted: bool)
    requires Inv(s) && AllAccounted(s) && !s.phase.Reading?
    ensures AllAccounted(Next(s, Resume(halted)))
  {
    hide RegistryInv, TraceInv;
    var r := Next(s, Resume(halted));
    forall c: Chan | c < s.next
      ensures Accounted(r, c)
    {
      assert Accounted(s, c);
      LiveMembers(s.chans, c);
      if s.phase.Draining? && s.phase.list != [] {
        var list := s.phase.list;
        assert list == [list[0]] + list[1..];
      }
    }
  }

  lemma NextAccounts(s: State, step: Step)
    requires Inv(s) && AllAccounted(s) && (step.ForChannel? ==> step.id < U32_MODULUS)
    ensures AllAccounted(Next(s, step))
  {
    hide Inv, Fail, NewChannel, HandlePacket, AllAccounted;
    NewChannelAccounts(s, step.PeerOpens?);
    if step.OpenLocal? {
    } else if s.phase.Reading? {
      FailAccounts(s);
      PhaseOfNew(s, step.PeerOpens?);
      FailAccounts(NewChannel(s, step.PeerOpens?));
      if step.ForChannel? && Get(s.chans, s.offset, step.id).Some? {
        HandleAccounts(s, Get(s.chans, s.offset, step.id).value, step.id, step.kind, step.halted);
      }
    } else if step.Resume? {
      ResumeAccounts(s, step.halted);
    }
  }

  lemma PhaseOfNew(s: State, inbound: bool)
    ensures NewChannel(s, inbound).phase == s.phase
  {
  }

  lemma {:induction false} RunAccounts(offset: nat, steps: seq<Step>)
    requires Words(steps)
    ensures AllAccounted(Run(Init(offset), steps))
    decreases |steps|
  {
    if steps != [] {
      hide Inv, Next, AllAccounted, Init;
      RunKeeps(offset, steps[..|steps| - 1]);
      RunAccounts(offset, steps[..|steps| - 1]);
      NextAccounts(Run(Init(offset), steps[..|steps| - 1]), steps[|steps| - 1]);
    }
  }

  /** Once the loop has ended every channel ever made has been closed, except those whose open the peer
      refused and those made after the registry was emptied. */
  lemma EndedClosesAll(offset: nat, steps: seq<Step>, c: Chan)
    requires Words(steps)
    ensures var s := Run(Init(offset), steps);
            s.phase.Ended? && c < s.next && !IsLive(s, c) && c !in s.info.refused ==> Closed(c) in s.trace
  {
    hide Run, IsLive;
    RunAccounts(offset, steps);
    var s := Run(Init(offset), steps);
    assert c < s.next ==> Accounted(s, c);
  }

  // ---- What one packet does ----

  /** The packet ends the loop: it is faulty, it answers an open that may not be answered, or the wait for room in a
      queue was stopped. */
  predicate Breaks(s: State, c: Chan, kind: Kind, halted: bool)
  {
    || kind == Data(true) || kind == Adjust(true) || kind == Undecodable || kind == OpenConfirm(false)
    || ((kind.OpenFailure? || kind.OpenConfirm?) && (c in s.info.inbound || c in s.info.decided))
    || (halted && (kind.RequestMsg? || kind.OtherMsg? || kind.OpenConfirm?))
  }

  /** In every run: a packet for a live channel either ends the loop, with everything then live to be closed and
      nothing put in a queue, or does to that channel, and to no other, what its type says. */
  lemma PacketDoes(offset: nat, steps: seq<Step>, id: nat, c: Chan, kind: Kind, halted: bool)
    requires Words(steps) && id < U32_MODULUS
    requires var s := Run(Init(offset), steps); s.phase.Reading? && IsLive(s, c) && c in s.info.ids && s.info.ids[c] == id
    ensures var s := Run(Init(offset), steps);
            var r := Next(s, ForChannel(id, kind, halted));
            && (Breaks(s, c, kind, halted) ==>
                  r.phase == Draining(Live(s.chans)) && r.trace == s.trace && r.chans == [])
            && (!Breaks(s, c, kind, halted) ==>
                  && r.trace == s.trace + (match kind
                                           case RequestMsg => [SentRequest(c)]
                                           case OtherMsg => [SentMsg(c)]
                                           case OpenConfirm(_) => [SentReply(c)]
                                           case _ => [])
                  && r.phase == (match kind case CloseMsg => Closing(c) case OpenFailure => Answering(c) case _ => Reading)
                  && (forall d: Chan :: IsLive(r, d) <==> IsLive(s, d) && !(d == c && (kind.CloseMsg? || kind.OpenFailure?)))
                  && (c in r.info.decided <==> c in s.info.decided || kind.OpenFailure? || kind.OpenConfirm?))
  {
    var s := Run(Init(offset), steps);
    RunKeeps(offset, steps);
    RunsAreSafe(offset, steps, id, c);
    hide Run, HandInv, TraceInv, IdAt, Slot, Live;
    if kind.CloseMsg? || kind.OpenFailure? {
      forall d: Chan
        ensures Some(d) in Removed(s.chans, s.offset, id) <==> Some(d) in s.chans && d != c
      {
        RemovedMembers(s.chans, s.offset, s.info.ids, s.next, id, d);
      }
    }
    assert s.trace + [] == s.trace;
  }

  /** The loop has ended with an error: nothing is in the registry, and what was live is to be closed. */
  predicate EndsWith(s: State, r: State)
  {
    r.chans == [] && r.phase == Draining(Live(s.chans)) && r.trace == s.trace
  }

  /** The packets that are for no channel. A read that timed out and an open that is refused leave everything as it was. */
  lemma LoopSteps(s: State)
    requires s.phase.Reading?
    ensures Next(s, ReadFails(true)) == s && EndsWith(s, Next(s, ReadFails(false))) && EndsWith(s, Next(s, ShortPacket))
    ensures Next(s, Global(false)) == s && EndsWith(s, Next(s, Global(true)))
    ensures Next(s, PeerOpens(false, false)) == s && EndsWith(s, Next(s, PeerOpens(false, true)))
    ensures HasRoom(s.chans) ==> EndsWith(NewChannel(s, true), Next(s, PeerOpens(true, true)))
    ensures forall id, kind, halted :: Get(s.chans, s.offset, id).None? ==> EndsWith(s, Next(s, ForChannel(id, kind, halted)))
  {
  }

  /** In every run, a channel that is opened is a new one, live from then on under an identifier that no live channel
      has; it counts as the peer's exactly when the peer opened it; and no other channel is touched. */
  lemma OpeningAdds(offset: nat, steps: seq<Step>, byPeer: bool)
    requires Words(steps)
    requires var s := Run(Init(offset), steps); HasRoom(s.chans) && (byPeer ==> s.phase.Reading?)
    ensures var s := Run(Init(offset), steps);
            var r := Next(s, if byPeer then PeerOpens(true, false) else OpenLocal);
            && r.next == s.next + 1 && r.trace == s.trace && r.phase == s.phase && r.info.decided == s.info.decided
            && (forall c: Chan :: IsLive(r, c) <==> IsLive(s, c) || c == s.next)
            && (forall c: Chan :: c in r.info.inbound <==> c in s.info.inbound || (byPeer && c == s.next))
            && (forall c: Chan :: c in s.info.ids ==> c in r.info.ids && r.info.ids[c] == s.info.ids[c])
            && s.next in r.info.ids
            && (forall c: Chan :: IsLive(s, c) && c in s.info.ids ==> s.info.ids[c] != r.info.ids[s.next])
  {
    var s := Run(Init(offset), steps);
    RunKeeps(offset, steps);
    var step := if byPeer then PeerOpens(true, false) else OpenLocal;
    OpenedKeeps(s, byPeer);
    hide Run, Inv, IdAt, FreeSlot, Added;
    forall c: Chan
      ensures Some(c) in Added(s.chans, s.next) <==> Some(c) in s.chans || c == s.next
    {
      AddedMembers(s.chans, s.next, c);
    }
    var r := Next(s, step);
    assert r == NewChannel(s, byPeer);
    assert forall c: Chan :: IsLive(r, c) <==> IsLive(s, c) || c == s.next;
  }

  lemma OpenedKeeps(s: State, byPeer: bool)
    requires Inv(s) && HasRoom(s.chans)
    ensures var r := NewChannel(s, byPeer);
            && s.next in r.info.ids
            && (forall c: Chan :: c in s.info.ids ==> c in r.info.ids && r.info.ids[c] == s.info.ids[c])
            && forall c: Chan :: Some(c) in s.chans && c in s.info.ids ==> s.info.ids[c] != r.info.ids[s.next]
  {
    var r := NewChannel(s, byPeer);
    AddKeepsRegistry(s.chans, s.offset, s.info.ids, s.next);
    var k := FreeSlot(s.chans);
    assert r.chans[k] == Some(s.next);
    forall c: Chan | Some(c) in s.chans && c in s.info.ids
      ensures s.info.ids[c] != r.info.ids[s.next]
    {
      var i :| 0 <= i < |s.chans| && s.chans[i] == Some(c);
      assert i != k && r.chans[i] == Some(c);
      SlotOfId(s.offset, i, 0);
      SlotOfId(s.offset, k, 0);
    }
  }

  /** The loop starts with nothing and reads: the first request for the first channel the peer opens is handed over. */
  lemma FirstRequest(offset: nat)
    ensures Run(Init(offset), []) == Init(offset) && Init(offset).phase.Reading?
    ensures Run(Init(offset), [PeerOpens(true, false), ForChannel(IdAt(offset, 0), RequestMsg, false)]).trace == [SentRequest(0)]
  {
    var open, request := PeerOpens(true, false), ForChannel(IdAt(offset, 0), RequestMsg, false);
    assert [open, request][..1] == [open] && [open][..0] == [];
    assert Run(Init(offset), []) == Init(offset);
    assert Run(Init(offset), [open]) == Next(Init(offset), open);
    SlotOfId(offset, 0, 0);
    assert Get([Some(0)], offset, IdAt(offset, 0)) == Some(0);
  }

  /** What is under way is finished: a close closes the channel, a refused open is answered, and after the loop every
      channel on the list is closed in turn. */
  lemma ResumeDoes(s: State)
    ensures s.phase.Closing? ==> Next(s, Resume(false)) == s.(phase := Reading, trace := s.trace + [Closed(s.phase.ch)])
    ensures s.phase.Answering? ==> Next(s, Resume(false)) == s.(phase := Reading, trace := s.trace + [SentReply(s.phase.ch)])
    ensures s.phase.Answering? ==> EndsWith(s, Next(s, Resume(true)))
    ensures s.phase.Draining? && s.phase.list != [] ==>
              Next(s, Resume(false)) == s.(phase := Draining(s.phase.list[1..]), trace := s.trace + [Closed(s.phase.list[0])])
    ensures s.phase == Draining([]) ==> Next(s, Resume(false)) == s.(phase := Ended)
  {
  }

  // ---- The results ----

  /** In every run, whoever opens channels in between: no queue is used or closed again once closed, an open
      is answered at most once, and every live channel is found by its identifier and by no other. */
  lemma RunsAreSafe(offset: nat, steps: seq<Step>, id: nat, c: Chan)
    requires Words(steps) && id < U32_MODULUS
    ensures var s := Run(Init(offset), steps);
            && QueuesRespected(s.trace) && AnsweredOnce(s.trace, s.info.inbound)
            && (Get(s.chans, s.offset, id) == Some(c) <==> IsLive(s, c) && c in s.info.ids && s.info.ids[c] == id)
  {
    hide Run, QueuesRespected, AnsweredOnce, RegistryInv, Get;
    RunKeeps(offset, steps);
    var s := Run(Init(offset), steps);
    GetIffLive(s.chans, s.offset, s.info.ids, s.next, id, c);
  }

  lemma GetIffLive(chans: seq<Option<Chan>>, offset: nat, ids: map<Chan, nat>, next: Chan, id: nat, c: Chan)
    requires RegistryInv(chans, offset, ids, next) && id < U32_MODULUS
    ensures Get(chans, offset, id) == Some(c) <==> Some(c) in chans && c in ids && ids[c] == id
  {
    hide IdAt, Slot;
    SlotOfId(offset, 0, id);
    if Get(chans, offset, id) == Some(c) {
      GetIsLive(chans, offset, ids, next, id);
    }
    if Some(c) in chans {
      var i :| 0 <= i < |chans| && chans[i] == Some(c);
      SlotOfId(offset, i, id);
    }
  }

  /** No two live channels have the same identifier. */
  lemma LiveIdsDistinct(offset: nat, steps: seq<Step>, c: Chan, d: Chan)
    requires Words(steps)
    requires var s := Run(Init(offset), steps); IsLive(s, c) && IsLive(s, d) && c in s.info.ids && d in s.info.ids
    ensures var s := Run(Init(offset), steps); c != d ==> s.info.ids[c] != s.info.ids[d]
  {
    RunKeeps(offset, steps);
    var s := Run(Init(offset), steps);
    hide Run;
    var i :| 0 <= i < |s.chans| && s.chans[i] == Some(c);
    SlotOfId(s.offset, i, 0);
    RunsAreSafe(offset, steps, s.info.ids[c], c);
    RunsAreSafe(offset, steps, s.info.ids[c], d);
  }
}
