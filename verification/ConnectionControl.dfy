/** The master side's registry of connections: topics by id, their pings, and the registry spread over slots. */
module ConnectionControl {
  import opened Options

  const UINT32_BOUND: nat := 0x1_0000_0000
  const SIZE_T_BOUND: nat := 0x1_0000_0000_0000_0000

  datatype MasterConfiguration = MasterConfiguration(connectionTimeoutDur: nat, connectionBrokeDur: nat, absTimeoutDur: nat, slaveCount: nat)

  /** `ConnectionTopic`; when each slave last pinged. */
  datatype Topic = Topic(config: MasterConfiguration, whoWhen: map<string, nat>)

  datatype PingResult = Success | ConnectionNotFound | PingRoomOverflow | BadConnectionId

  /** `ConnectionController`; its counter has 32 bits. `openings` counts the openings without wrapping. */
  datatype State = State(idTopicMap: map<nat, Topic>, idCounter: nat, openings: nat)

  const START: State := State(map[], 0, 0)

  datatype Op = Open(config: MasterConfiguration) | Ping(id: nat, who: string, now: nat) | Close(id: nat)

  // ----- one controller, on values -----

  function Opened(s: State, config: MasterConfiguration): State
  {
    State(s.idTopicMap[s.idCounter := Topic(config, map[])], (s.idCounter + 1) % UINT32_BOUND, s.openings + 1)
  }

  /** A slave not seen before, where all the slaves the topic is for have been seen. */
  predicate RoomOverflows(topic: Topic, who: string)
  {
    who !in topic.whoWhen && |topic.whoWhen| == topic.config.slaveCount
  }

  function Pinged(s: State, id: nat, who: string, now: nat): (State, PingResult)
  {
    if id !in s.idTopicMap then (s, ConnectionNotFound) else
      var topic := s.idTopicMap[id];
      if RoomOverflows(topic, who) then (s, PingRoomOverflow)
      else (s.(idTopicMap := s.idTopicMap[id := topic.(whoWhen := topic.whoWhen[who := now])]), Success)
  }

  function Closed(s: State, id: nat): State
  {
    s.(idTopicMap := s.idTopicMap - {id})
  }

  function Step(s: State, op: Op): State
  {
    match op
    case Open(config) => Opened(s, config)
    case Ping(id, who, now) => Pinged(s, id, who, now).0
    case Close(id) => Closed(s, id)
  }

  /** The counter is the openings modulo `2^32`; until it wraps every topic's id was handed out before; no
      topic has more slaves than it was opened for. */
  ghost predicate Sound(s: State)
  {
    && s.idCounter == s.openings % UINT32_BOUND
    && (forall id :: id in s.idTopicMap ==> id < UINT32_BOUND && id < s.openings)
    && (forall id :: id in s.idTopicMap ==> |s.idTopicMap[id].whoWhen| <= s.idTopicMap[id].config.slaveCount)
  }

  lemma StepIsSound(s: State, op: Op)
    requires Sound(s)
    ensures Sound(Step(s, op))
  {
    match op
    case Open(config) =>
      CounterBelow(s.openings);
    case Ping(id, who, now) =>
      if id in s.idTopicMap {
        var seen := s.idTopicMap[id].whoWhen;
        assert who in seen ==> seen[who := now].Keys == seen.Keys;
        assert who !in seen ==> seen[who := now].Keys == seen.Keys + {who};
      }
    case Close(id) =>
  }

  lemma CounterBelow(n: nat)
    ensures n % UINT32_BOUND <= n && (n % UINT32_BOUND + 1) % UINT32_BOUND == (n + 1) % UINT32_BOUND
    ensures n < UINT32_BOUND ==> n % UINT32_BOUND == n
    ensures n % UINT32_BOUND < UINT32_BOUND
  {}

  /** An opening hands out an id that no earlier one did, if and only if the counter has not wrapped. */
  lemma OpenIsFreshUntilWrap(s: State)
    requires Sound(s)
    ensures (forall n: nat :: n < s.openings ==> n % UINT32_BOUND != s.idCounter) <==> s.openings < UINT32_BOUND
  {
    if s.openings < UINT32_BOUND {
      forall n: nat | n < s.openings ensures n % UINT32_BOUND != s.idCounter {
        CounterBelow(n);
      }
    } else {
      var n := s.openings - UINT32_BOUND;
      assert n % UINT32_BOUND == s.idCounter;
    }
  }

  ghost predicate IsRun(s: State, ops: seq<Op>, states: seq<State>)
  {
    && |states| == |ops| + 1 && states[0] == s
    && forall i :: 0 <= i < |ops| ==> states[i + 1] == Step(states[i], ops[i])
  }

  lemma {:induction false} RunIsSound(s: State, ops: seq<Op>, states: seq<State>, i: nat)
    requires Sound(s) && IsRun(s, ops, states) && i <= |ops|
    ensures Sound(states[i]) && states[i].openings >= s.openings
    decreases i
  {
    if i > 0 {
      RunIsSound(s, ops, states, i - 1);
      StepIsSound(states[i - 1], ops[i - 1]);
      assert states[i] == Step(states[i - 1], ops[i - 1]);
    }
  }

  /** A topic that is gone stays gone, and every later ping of it fails, as long as the counter does not wrap. */
  lemma {:induction false} GoneStaysGone(s: State, ops: seq<Op>, states: seq<State>, id: nat, i: nat)
    requires Sound(s) && IsRun(s, ops, states) && i <= |ops|
    requires id !in s.idTopicMap && id < s.openings && states[i].openings <= UINT32_BOUND
    ensures id !in states[i].idTopicMap
    ensures i < |ops| && ops[i].Ping? && ops[i].id == id ==> Pinged(states[i], id, ops[i].who, ops[i].now).1 == ConnectionNotFound
    decreases i
  {
    if i > 0 {
      assert states[i] == Step(states[i - 1], ops[i - 1]);
      GoneStaysGone(s, ops, states, id, i - 1);
      RunIsSound(s, ops, states, i - 1);
      CounterBelow(states[i - 1].openings);
    }
  }

  /** When `who` last pinged the topic `id`, whatever became of the ping. */
  function LastPing(ops: seq<Op>, id: nat, who: string): Option<nat>
  {
    if ops == [] then None else
      var op := ops[|ops| - 1];
      if op.Ping? && op.id == id && op.who == who then Some(op.now) else LastPing(ops[..|ops| - 1], id, who)
  }

  /** Over every run, what a topic has recorded of a slave is the time of its last ping. */
  lemma {:induction false} PingsRecorded(ops: seq<Op>, states: seq<State>, i: nat, id: nat, who: string)
    requires IsRun(START, ops, states) && i <= |ops| && id in states[i].idTopicMap && who in states[i].idTopicMap[id].whoWhen
    ensures LastPing(ops[..i], id, who) == Some(states[i].idTopicMap[id].whoWhen[who])
    decreases i
  {
    if i > 0 {
      var s, op := states[i - 1], ops[i - 1];
      assert states[i] == Step(s, op) && ops[..i][..i - 1] == ops[..i - 1];
      if !(op.Ping? && op.id == id && op.who == who) {
        PingsRecorded(ops, states, i - 1, id, who);
      }
    }
  }

  // ----- ids of the distributed controller -----

  function Encode(hi: nat, lo: nat): (encoded: nat)
    requires hi < UINT32_BOUND && lo < UINT32_BOUND
    ensures encoded < SIZE_T_BOUND
  {
    hi * UINT32_BOUND + lo
  }

  function Decode(encoded: nat): (r: (nat, nat))
    requires encoded < SIZE_T_BOUND
    ensures r.0 < UINT32_BOUND && r.1 < UINT32_BOUND
  {
    (encoded / UINT32_BOUND, encoded % UINT32_BOUND)
  }

  /** The two halves of an id can be told apart, and every id is made of two halves. */
  lemma EncodeDecode(hi: nat, lo: nat, encoded: nat)
    requires hi < UINT32_BOUND && lo < UINT32_BOUND && encoded < SIZE_T_BOUND
    ensures Decode(Encode(hi, lo)) == (hi, lo)
    ensures Encode(Decode(encoded).0, Decode(encoded).1) == encoded
  {}

  // ----- the controllers -----

  class ConnectionController {
    var idTopicMap: map<nat, Topic>
    var idCounter: nat
    ghost var openings: nat

    ghost function Abstract(): State
      reads this
    {
      State(idTopicMap, idCounter, openings)
    }

    ghost predicate Valid()
      reads this
    {
      Sound(Abstract())
    }

    constructor ()
      ensures Valid() && Abstract() == START
    {
      idTopicMap, idCounter, openings := map[], 0, 0;
    }

    method OpenConnection(config: MasterConfiguration) returns (nxtId: nat)
      requires Valid()
      modifies this
      ensures Valid() && Abstract() == Opened(old(Abstract()), config)
      ensures nxtId == old(openings) % UINT32_BOUND && idTopicMap == old(idTopicMap)[nxtId := Topic(config, map[])]
      ensures old(openings) < UINT32_BOUND ==> nxtId !in old(idTopicMap)
    {
      StepIsSound(Abstract(), Open(config));
      CounterBelow(openings);
      nxtId := idCounter;
      idTopicMap := idTopicMap[nxtId := Topic(config, map[])];
      idCounter := (idCounter + 1) % UINT32_BOUND;
      openings := openings + 1;
    }

    method GetConnection(connectionId: nat) returns (r: Option<Topic>)
      ensures r.Some? <==> connectionId in idTopicMap
      ensures r.Some? ==> r.value == idTopicMap[connectionId]
    {
      return if connectionId in idTopicMap then Some(idTopicMap[connectionId]) else None;
    }

    method PingConnection(connectionId: nat, who: string, now: nat) returns (r: PingResult)
      requires Valid()
      modifies this
      ensures Valid() && (Abstract(), r) == Pinged(old(Abstract()), connectionId, who, now)
      ensures r == ConnectionNotFound <==> connectionId !in old(idTopicMap)
      ensures r == PingRoomOverflow <==> (connectionId in old(idTopicMap) && who !in old(idTopicMap)[connectionId].whoWhen
        && |old(idTopicMap)[connectionId].whoWhen| == old(idTopicMap)[connectionId].config.slaveCount)
      ensures r == Success || r == ConnectionNotFound || r == PingRoomOverflow
      ensures r != Success ==> idTopicMap == old(idTopicMap)
      ensures r == Success ==> var t := old(idTopicMap)[connectionId];
        idTopicMap == old(idTopicMap)[connectionId := t.(whoWhen := t.whoWhen[who := now])]
    {
      StepIsSound(Abstract(), Ping(connectionId, who, now));
      if connectionId !in idTopicMap {
        return ConnectionNotFound;
      }
      var topic := idTopicMap[connectionId];
      if who !in topic.whoWhen {
        if |topic.whoWhen| == topic.config.slaveCount {
          return PingRoomOverflow;
        }
      }
      idTopicMap := idTopicMap[connectionId := topic.(whoWhen := topic.whoWhen[who := now])];
      return Success;
    }

    method CloseConnection(connectionId: nat)
      requires Valid()
      modifies this
      ensures Valid() && Abstract() == Closed(old(Abstract()), connectionId) && idTopicMap == old(idTopicMap) - {connectionId}
    {
      StepIsSound(Abstract(), Close(connectionId));
      idTopicMap := idTopicMap - {connectionId};
    }
  }

  /** The registry over several controllers: an id names a controller and a topic of it. */
  class DistributedConnectionController {
    var baseVec: seq<State>
    var seed: nat

    ghost predicate Valid()
      reads this
    {
      0 < |baseVec| < UINT32_BOUND && seed < SIZE_T_BOUND && forall i :: 0 <= i < |baseVec| ==> Sound(baseVec[i])
    }

    /** The topic an id names. */
    ghost function Lookup(id: nat): Option<Topic>
      reads this
    {
      if id >= SIZE_T_BOUND then None else
        var (base, slot) := Decode(id);
        if slot < |baseVec| && base in baseVec[slot].idTopicMap then Some(baseVec[slot].idTopicMap[base]) else None
    }

    /** The constructor throws for no controllers at all. */
    constructor (concurrencySz: nat)
      requires 0 < concurrencySz < UINT32_BOUND
      ensures Valid() && |baseVec| == concurrencySz && forall id :: Lookup(id) == None
    {
      baseVec := seq(concurrencySz, _ => START);
      seed := 0;
    }

    /** Round robin over the controllers. */
    method OpenConnection(config: MasterConfiguration) returns (id: nat)
      requires Valid()
      modifies this
      ensures Valid() && id < SIZE_T_BOUND && Lookup(id) == Some(Topic(config, map[]))
      ensures forall other :: other != id ==> Lookup(other) == old(Lookup(other))
      ensures old(baseVec[seed % |baseVec|].openings) < UINT32_BOUND ==> old(Lookup(id)) == None
      ensures Decode(id) == (old(baseVec[seed % |baseVec|].idCounter), old(seed % |baseVec|)) && seed == (old(seed) + 1) % SIZE_T_BOUND
    {
      var slotIdx := seed % |baseVec|;
      seed := (seed + 1) % SIZE_T_BOUND;
      var s := baseVec[slotIdx];
      StepIsSound(s, Open(config));
      CounterBelow(s.openings);
      var base := s.idCounter;
      id := Encode(base, slotIdx);
      EncodeDecode(base, slotIdx, id);
      forall other: nat | other != id && other < SIZE_T_BOUND ensures Decode(other) != (base, slotIdx) {
        EncodeDecode(base, slotIdx, other);
      }
      baseVec := baseVec[slotIdx := Opened(s, config)];
    }

    method PingConnection(id: nat, who: string, now: nat) returns (r: PingResult)
      requires Valid() && id < SIZE_T_BOUND
      modifies this
      ensures Valid()
      ensures r == BadConnectionId <==> Decode(id).1 >= |baseVec|
      ensures r == BadConnectionId || r == ConnectionNotFound <==> old(Lookup(id)) == None
      ensures r == PingRoomOverflow <==> old(Lookup(id)).Some? && RoomOverflows(old(Lookup(id)).value, who)
      ensures forall other :: other != id ==> Lookup(other) == old(Lookup(other))
      ensures r != Success ==> baseVec == old(baseVec)
      ensures r == Success ==>
        Lookup(id) == Some(old(Lookup(id)).value.(whoWhen := old(Lookup(id)).value.whoWhen[who := now]))
    {
      var (base, slotIdx) := Decode(id);
      if slotIdx >= |baseVec| {
        return BadConnectionId;
      }
      StepIsSound(baseVec[slotIdx], Ping(base, who, now));
      OtherIdsElsewhere(id);
      var (s, result) := Pinged(baseVec[slotIdx], base, who, now);
      baseVec := baseVec[slotIdx := s];
      return result;
    }

    method CloseConnection(id: nat)
      requires Valid() && id < SIZE_T_BOUND
      modifies this
      ensures Valid() && Lookup(id) == None
      ensures forall other :: other != id ==> Lookup(other) == old(Lookup(other))
    {
      var (base, slotIdx) := Decode(id);
      if slotIdx >= |baseVec| {
        return;
      }
      StepIsSound(baseVec[slotIdx], Close(base));
      OtherIdsElsewhere(id);
      baseVec := baseVec[slotIdx := Closed(baseVec[slotIdx], base)];
    }
  }

  lemma OtherIdsElsewhere(id: nat)
    requires id < SIZE_T_BOUND
    ensures forall other: nat :: other != id && other < SIZE_T_BOUND ==> Decode(other) != Decode(id)
  {
    forall other: nat | other != id && other < SIZE_T_BOUND ensures Decode(other) != Decode(id) {
      EncodeDecode(Decode(id).0, Decode(id).1, id);
      EncodeDecode(Decode(other).0, Decode(other).1, other);
    }
  }
}
