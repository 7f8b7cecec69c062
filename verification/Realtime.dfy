/** WebSocket rooms: who is connected, and which consumer feeds them
    (server/chat/service/realtime_service.go). */
module RoomService {
  import opened GoStrings
  import opened Keys
  import opened Ledger

  /** Connections and consumers are numbered; a room names its running consumer. */
  datatype Room = Room(conns: set<nat>, consumer: nat)

  /** A consumer is started for a room key, subscribes to `info`, and is cancelled
      by the room's cancel function; the ledger counts the cancellations. */
  datatype State = State(rooms: map<string, Room>, consumers: seq<Item<string>>)

  const EMPTY := State(map[], [])

  function Join(s: State, room: string, channel: string, conn: nat): State {
    if room in s.rooms
    then s.(rooms := s.rooms[room := s.rooms[room].(conns := s.rooms[room].conns + {conn})])
    else State(s.rooms[room := Room({conn}, |s.consumers|)], s.consumers + [Item(channel, room, 0)])
  }

  function Leave(s: State, room: string, conn: nat): State {
    if room !in s.rooms then s
    else
      var conns := s.rooms[room].conns - {conn};
      if conns == {} then State(s.rooms - {room}, Shut(s.consumers, s.rooms[room].consumer))
      else s.(rooms := s.rooms[room := s.rooms[room].(conns := conns)])
  }

  class RealtimeService {
    var rooms: map<string, Room>
    var consumers: seq<Item<string>>

    ghost function View(): State reads this { State(rooms, consumers) }

    constructor ()
      ensures View() == EMPTY
    {
      rooms, consumers := map[], [];
    }

    method JoinRoom(room: string, channel: string, conn: nat)
      modifies this
      ensures View() == Join(old(View()), room, channel, conn)
    {
      if room !in rooms {
        rooms := rooms[room := Room({}, |consumers|)];
        consumers := consumers + [Item(channel, room, 0)];
      }
      rooms := rooms[room := rooms[room].(conns := rooms[room].conns + {conn})];
      assert {} + {conn} == {conn};
    }

    method LeaveRoom(room: string, conn: nat)
      modifies this
      ensures View() == Leave(old(View()), room, conn)
    {
      if room in rooms {
        rooms := rooms[room := rooms[room].(conns := rooms[room].conns - {conn})];
        if rooms[room].conns == {} {
          consumers := Shut(consumers, rooms[room].consumer);
          rooms := rooms - {room};
          assert rooms == old(rooms) - {room};
        }
      }
    }

    /** consumeRedis on one message: one write to each connection of its room. */
    method Deliver(room: string) returns (written: seq<nat>)
      ensures multiset(written) == multiset(if room in rooms then rooms[room].conns else {})
    {
      written := [];
      if room !in rooms { return; }
      var left := rooms[room].conns;
      while left != {}
        invariant left <= rooms[room].conns
        invariant multiset(written) + multiset(left) == multiset(rooms[room].conns)
      {
        var c :| c in left;
        assert multiset(left) == multiset(left - {c}) + multiset{c};
        left := left - {c};
        written := written + [c];
      }
    }
  }

  // ---------- runs ----------

  /** HandleWS derives a room's key and its channel from the tenant and room ids. */
  function RoomKey(tenant: string, room: string): string { Keyed(tenant, room) }

  function Channel(tenant: string, room: string): string { "tenant:" + Keyed(tenant, "room:" + room) }

  lemma NameExample()
    ensures RoomKey("t", "r") == "t:r" && Channel("t", "r") == "tenant:t:room:r"
  {}

  /** A handler joins its room when it starts and leaves it when it ends. */
  datatype Op = JoinOp(tenant: string, room: string, conn: nat) | LeaveOp(tenant: string, room: string, conn: nat) {
    function Key(): string { RoomKey(tenant, room) }
  }

  function Step(s: State, op: Op): State {
    match op
    case JoinOp(tenant, room, conn) => Join(s, RoomKey(tenant, room), Channel(tenant, room), conn)
    case LeaveOp(tenant, room, conn) => Leave(s, RoomKey(tenant, room), conn)
  }

  function Run(ops: seq<Op>): State {
    if ops == [] then EMPTY else Step(Run(ops[..|ops| - 1]), ops[|ops| - 1])
  }

  predicate IsJoin(op: Op, key: string, conn: nat) { op.JoinOp? && op.Key() == key && op.conn == conn }

  predicate IsLeave(op: Op, key: string, conn: nat) { op.LeaveOp? && op.Key() == key && op.conn == conn }

  /** The connection joined under the key and has not left it since. */
  ghost predicate Live(ops: seq<Op>, key: string, conn: nat) {
    exists i :: 0 <= i < |ops| && IsJoin(ops[i], key, conn)
             && forall j :: i < j < |ops| ==> !IsLeave(ops[j], key, conn)
  }

  lemma LiveStep(ops: seq<Op>, op: Op, key: string, conn: nat)
    ensures Live(ops + [op], key, conn) <==>
      IsJoin(op, key, conn) || (!IsLeave(op, key, conn) && Live(ops, key, conn))
  {
    var all := ops + [op];
    if IsJoin(op, key, conn) {
      assert IsJoin(all[|ops|], key, conn);
    } else if !IsLeave(op, key, conn) && Live(ops, key, conn) {
      var i :| 0 <= i < |ops| && IsJoin(ops[i], key, conn) && forall j :: i < j < |ops| ==> !IsLeave(ops[j], key, conn);
      assert IsJoin(all[i], key, conn);
    }
    if Live(all, key, conn) && !IsJoin(op, key, conn) {
      var i :| 0 <= i < |all| && IsJoin(all[i], key, conn) && forall j :: i < j < |all| ==> !IsLeave(all[j], key, conn);
      assert all[|ops|] == op && i < |ops| && IsJoin(ops[i], key, conn);
      forall j | i < j < |ops| ensures !IsLeave(ops[j], key, conn) { assert all[j] == ops[j]; }
    }
  }

  function ConsumerOf(rooms: map<string, Room>): map<string, nat> { map r | r in rooms :: rooms[r].consumer }

  ghost predicate RoomsMatch(s: State, ops: seq<Op>) {
    && (forall r :: r in s.rooms ==> s.rooms[r].conns != {})
    && (forall r, c :: Inside(s, r, c) <==> Live(ops, r, c))
  }

  predicate Inside(s: State, r: string, c: nat) { r in s.rooms && c in s.rooms[r].conns }

  lemma StepInside(s: State, op: Op, r: string, c: nat)
    ensures Inside(Step(s, op), r, c) <==> IsJoin(op, r, c) || (!IsLeave(op, r, c) && Inside(s, r, c))
  {
    if op.LeaveOp? && op.Key() == r && r in s.rooms {
      assert c != op.conn ==> (c in s.rooms[r].conns <==> c in s.rooms[r].conns - {op.conn});
    }
  }

  lemma StepMatches(s: State, ops: seq<Op>, op: Op)
    requires RoomsMatch(s, ops)
    ensures RoomsMatch(Step(s, op), ops + [op])
  {
    var s' := Step(s, op);
    forall r, c ensures Inside(s', r, c) <==> Live(ops + [op], r, c) {
      LiveStep(ops, op, r, c);
      StepInside(s, op, r, c);
    }
    forall r | r in s'.rooms ensures s'.rooms[r].conns != {} {
      if op.JoinOp? && r == op.Key() { assert op.conn in s'.rooms[r].conns; }
    }
  }

  lemma StepBalances(s: State, op: Op)
    requires Balanced(ConsumerOf(s.rooms), s.consumers)
    ensures Balanced(ConsumerOf(Step(s, op).rooms), Step(s, op).consumers)
  {
    var held, key := ConsumerOf(s.rooms), op.Key();
    if key in s.rooms {
      assert ConsumerOf(s.rooms - {key}) == held - {key};
      BalancedShut(held, s.consumers, key);
      assert key in Step(s, op).rooms ==> ConsumerOf(Step(s, op).rooms) == held;
    } else if op.JoinOp? {
      BalancedOpen(held, s.consumers, key, Channel(op.tenant, op.room));
      assert ConsumerOf(Step(s, op).rooms) == held[key := |s.consumers|];
    }
  }

  lemma {:induction false} RunMatches(ops: seq<Op>)
    ensures RoomsMatch(Run(ops), ops)
    ensures Balanced(ConsumerOf(Run(ops).rooms), Run(ops).consumers)
  {
    if ops != [] {
      var before, op := ops[..|ops| - 1], ops[|ops| - 1];
      RunMatches(before);
      StepMatches(Run(before), before, op);
      StepBalances(Run(before), op);
      assert before + [op] == ops;
    }
  }

  /** A room is kept exactly while someone is connected, with exactly the live
      connections. */
  lemma RoomsFollowConnections(ops: seq<Op>, r: string)
    ensures r in Run(ops).rooms <==> exists c :: Live(ops, r, c)
    ensures r in Run(ops).rooms ==> forall c :: c in Run(ops).rooms[r].conns <==> Live(ops, r, c)
  {
    RunMatches(ops);
    var s := Run(ops);
    if r in s.rooms {
      var c :| c in s.rooms[r].conns;
      assert Inside(s, r, c);
    }
    forall c ensures Inside(s, r, c) <==> Live(ops, r, c) {}
  }

  /** A mapped room has one running consumer, started for it; a consumer without a
      room has been cancelled, exactly once. */
  lemma OneConsumerPerLiveRoom(ops: seq<Op>)
    ensures var s := Run(ops);
      && (forall r :: r in s.rooms ==>
            var p := s.rooms[r].consumer; p < |s.consumers| && s.consumers[p].tenant == r && s.consumers[p].closes == 0)
      && (forall p :: 0 <= p < |s.consumers| ==>
            || s.consumers[p].closes == 1
            || (s.consumers[p].closes == 0 && s.consumers[p].tenant in s.rooms && s.rooms[s.consumers[p].tenant].consumer == p))
  {
    RunMatches(ops);
    BalancedRooms(Run(ops));
  }

  lemma BalancedRooms(s: State)
    requires Balanced(ConsumerOf(s.rooms), s.consumers)
    ensures forall r :: r in s.rooms ==>
      var p := s.rooms[r].consumer; p < |s.consumers| && s.consumers[p].tenant == r && s.consumers[p].closes == 0
    ensures forall p :: 0 <= p < |s.consumers| ==>
      || s.consumers[p].closes == 1
      || (s.consumers[p].closes == 0 && s.consumers[p].tenant in s.rooms && s.rooms[s.consumers[p].tenant].consumer == p)
  {
    var held := ConsumerOf(s.rooms);
    assert forall r :: r in s.rooms ==> r in held && held[r] == s.rooms[r].consumer;
  }

  /** The consumers of a room that still read. */
  ghost function Running(s: State, room: string): set<int> {
    set p | 0 <= p < |s.consumers| && s.consumers[p].tenant == room && s.consumers[p].closes == 0
  }

  /** Exactly one consumer runs for a room while anyone is connected, none otherwise. */
  lemma RunningConsumer(ops: seq<Op>, room: string)
    ensures Running(Run(ops), room) ==
      if room in Run(ops).rooms then {Run(ops).rooms[room].consumer as int} else {}
  {
    OneConsumerPerLiveRoom(ops);
  }

  // ---------- who receives a published message ----------

  /** The consumers that hand a message on `channel` to the connection. */
  ghost function Feeding(s: State, channel: string, conn: nat): set<int> {
    set p | 0 <= p < |s.consumers| && s.consumers[p].closes == 0 && s.consumers[p].info == channel
            && Inside(s, s.consumers[p].tenant, conn)
  }

  /** How often a message published on `channel` is written to the connection. */
  ghost function Writes(s: State, channel: string, conn: nat): nat { |Feeding(s, channel, conn)| }

  /** The connection's handler for this very room has joined and has not left. */
  ghost predicate Connected(ops: seq<Op>, t: string, r: string, conn: nat) {
    exists i :: 0 <= i < |ops| && ops[i] == JoinOp(t, r, conn)
             && forall j :: i < j < |ops| ==> ops[j] != LeaveOp(t, r, conn)
  }

  /** Handlers of these tenants; HandleWS trims a room id and refuses a blank one. */
  ghost predicate Accepted(ops: seq<Op>, tenants: set<string>) {
    forall i :: 0 <= i < |ops| ==> ops[i].tenant in tenants && Trimmed(ops[i].room)
  }

  ghost predicate AllDiscernible(tenants: set<string>) {
    forall t, t' :: t in tenants && t' in tenants ==> Discernible(t, t')
  }

  lemma RoomKeyInjective(t: string, r: string, t': string, r': string)
    requires Discernible(t, t') && Trimmed(r) && Trimmed(r') && RoomKey(t, r) == RoomKey(t', r')
    ensures t == t' && r == r'
  {
    TrimmedStart(r);
    TrimmedStart(r');
    DiscernibleKeys(t, r, t', r');
  }

  lemma ChannelInjective(t: string, r: string, t': string, r': string)
    requires Discernible(t, t') && Channel(t, r) == Channel(t', r')
    ensures t == t' && r == r'
  {
    var u, u' := "room:" + r, "room:" + r';
    assert Keyed(t, u) == Channel(t, r)[7..] == Channel(t', r')[7..] == Keyed(t', u');
    assert u[0] == 'r' && u'[0] == 'r';
    DiscernibleKeys(t, u, t', u');
    assert u[5..] == r && u'[5..] == r';
  }

  /** All rooms of two different tenants differ both in key and in channel if and only
      if neither tenant id is the other followed by a colon and a text that begins
      without white space. */
  lemma NamesDifferIff(t: string, t': string)
    requires t != t'
    ensures (forall r, r' :: Trimmed(r) && Trimmed(r') ==> RoomKey(t, r) != RoomKey(t', r') && Channel(t, r) != Channel(t', r'))
       <==> Discernible(t, t')
  {
    if Discernible(t, t') {
      forall r, r' | Trimmed(r) && Trimmed(r') ensures RoomKey(t, r) != RoomKey(t', r') && Channel(t, r) != Channel(t', r') {
        if RoomKey(t, r) == RoomKey(t', r') { RoomKeyInjective(t, r, t', r'); }
        if Channel(t, r) == Channel(t', r') { ChannelInjective(t, r, t', r'); }
      }
    } else {
      var r, r' := TrimmedCollision(t, t');
      assert RoomKey(t, r) == RoomKey(t', r');
    }
  }

  /** Where names are unambiguous, being live under a key is being connected to the room. */
  lemma LiveIsConnected(ops: seq<Op>, tenants: set<string>, t: string, r: string, conn: nat)
    requires Accepted(ops, tenants) && AllDiscernible(tenants) && t in tenants && Trimmed(r)
    ensures Live(ops, RoomKey(t, r), conn) <==> Connected(ops, t, r, conn)
  {
    forall i | 0 <= i < |ops|
      ensures IsJoin(ops[i], RoomKey(t, r), conn) <==> ops[i] == JoinOp(t, r, conn)
      ensures IsLeave(ops[i], RoomKey(t, r), conn) <==> ops[i] == LeaveOp(t, r, conn)
    {
      if ops[i].Key() == RoomKey(t, r) { RoomKeyInjective(ops[i].tenant, ops[i].room, t, r); }
    }
  }

  ghost predicate IsRoom(tenants: set<string>, key: string, channel: string) {
    exists t, r :: t in tenants && Trimmed(r) && key == RoomKey(t, r) && channel == Channel(t, r)
  }

  /** Every consumer was started for some room, under its key and on its channel. */
  lemma {:induction false} ConsumersAreNamed(ops: seq<Op>, tenants: set<string>)
    requires Accepted(ops, tenants)
    ensures forall p :: 0 <= p < |Run(ops).consumers| ==>
      IsRoom(tenants, Run(ops).consumers[p].tenant, Run(ops).consumers[p].info)
  {
    if ops != [] {
      var before, op := ops[..|ops| - 1], ops[|ops| - 1];
      assert forall i :: 0 <= i < |before| ==> before[i] == ops[i];
      ConsumersAreNamed(before, tenants);
      var s, s' := Run(before), Run(ops);
      forall p | 0 <= p < |s'.consumers| ensures IsRoom(tenants, s'.consumers[p].tenant, s'.consumers[p].info) {
        if p < |s.consumers| {
          assert s'.consumers[p].tenant == s.consumers[p].tenant && s'.consumers[p].info == s.consumers[p].info;
        } else {
          assert s'.consumers[p].tenant == RoomKey(op.tenant, op.room) && s'.consumers[p].info == Channel(op.tenant, op.room);
        }
      }
    }
  }

  /** Among discernible tenants, a consumer listens to a room's channel exactly if it
      was started under the room's key. */
  lemma ConsumerServesRoom(ops: seq<Op>, tenants: set<string>, t: string, r: string, p: nat)
    requires Accepted(ops, tenants) && AllDiscernible(tenants) && t in tenants && Trimmed(r) && p < |Run(ops).consumers|
    ensures Run(ops).consumers[p].info == Channel(t, r) <==> Run(ops).consumers[p].tenant == RoomKey(t, r)
  {
    ConsumersAreNamed(ops, tenants);
    var item := Run(ops).consumers[p];
    assert IsRoom(tenants, item.tenant, item.info);
    var t', r' :| t' in tenants && Trimmed(r') && item.tenant == RoomKey(t', r') && item.info == Channel(t', r');
    if item.info == Channel(t, r) { ChannelInjective(t, r, t', r'); }
    if item.tenant == RoomKey(t, r) { RoomKeyInjective(t, r, t', r'); }
  }

  /** Among discernible tenants, a message published for a room is written exactly
      once to each connection of that room, and to no other connection. */
  lemma DeliveryIsExact(ops: seq<Op>, tenants: set<string>, t: string, r: string, conn: nat)
    requires Accepted(ops, tenants) && AllDiscernible(tenants) && t in tenants && Trimmed(r)
    ensures Writes(Run(ops), Channel(t, r), conn) == if Connected(ops, t, r, conn) then 1 else 0
  {
    var s, key := Run(ops), RoomKey(t, r);
    RunMatches(ops);
    assert Inside(s, key, conn) <==> Live(ops, key, conn);
    LiveIsConnected(ops, tenants, t, r, conn);
    RunningConsumer(ops, key);
    forall p | 0 <= p < |s.consumers|
      ensures p in Feeding(s, Channel(t, r), conn) <==> p in Running(s, key) && Inside(s, key, conn)
    {
      ConsumerServesRoom(ops, tenants, t, r, p);
    }
    assert Feeding(s, Channel(t, r), conn) == if Inside(s, key, conn) then Running(s, key) else {};
  }

  ghost predicate AlwaysExact(tenants: set<string>) {
    forall ops: seq<Op>, t: string, r: string, conn: nat :: Accepted(ops, tenants) && t in tenants && Trimmed(r) ==>
      Writes(Run(ops), Channel(t, r), conn) == if Connected(ops, t, r, conn) then 1 else 0
  }

  /** Over all runs that serve a set of tenants, and all rooms the handler accepts, every
      message goes exactly once to the connections of its own room and to no other, if
      and only if the tenants are pairwise discernible. */
  lemma DeliveryIsExactIff(tenants: set<string>)
    ensures AlwaysExact(tenants) <==> AllDiscernible(tenants)
  {
    if AllDiscernible(tenants) {
      forall ops: seq<Op>, t: string, r: string, conn: nat | Accepted(ops, tenants) && t in tenants && Trimmed(r)
        ensures Writes(Run(ops), Channel(t, r), conn) == if Connected(ops, t, r, conn) then 1 else 0
      {
        DeliveryIsExact(ops, tenants, t, r, conn);
      }
    } else {
      var t, t' :| t in tenants && t' in tenants && !Discernible(t, t');
      var r, r' := TrimmedCollision(t, t');
      SharedKeyMixesRooms(t, r, t', r');
      assert Accepted(TwoJoins(t, r, t', r'), tenants);
    }
  }

  /** One connection in each of two rooms. */
  function TwoJoins(t: string, r: string, t': string, r': string): seq<Op> {
    [JoinOp(t, r, 0), JoinOp(t', r', 1)]
  }

  /** Two rooms that share a key share the consumer of the first: the second room's
      connection gets the first room's messages, and its own only if the channels
      coincide as well. */
  lemma SharedKeyMixesRooms(t: string, r: string, t': string, r': string)
    requires (t, r) != (t', r') && RoomKey(t, r) == RoomKey(t', r')
    ensures var ops := TwoJoins(t, r, t', r');
      && !Connected(ops, t, r, 1) && Writes(Run(ops), Channel(t, r), 1) == 1
      && Connected(ops, t', r', 1)
      && Writes(Run(ops), Channel(t', r'), 1) == if Channel(t', r') == Channel(t, r) then 1 else 0
  {
    var key, ch, ch' := RoomKey(t, r), Channel(t, r), Channel(t', r');
    var first, second := JoinOp(t, r, 0), JoinOp(t', r', 1);
    var ops := [first, second];
    assert ops[..1] == [first] && [first][..0] == [];
    assert Run([first]) == Step(EMPTY, first);
    var s := Run(ops);
    assert s == Step(Run([first]), second);
    assert s.consumers == [Item(ch, key, 0)] && Inside(s, key, 1);
    assert Feeding(s, ch, 1) == {0};
    assert Feeding(s, ch', 1) == if ch' == ch then {0} else {};
    assert ops[1] == second;
  }

  /** Rooms with different keys may still share a channel: then a single connection in
      one of them gets the messages of the other. */
  lemma SharedChannelMixesRooms(t: string, u: string, r: string)
    ensures var ops := [JoinOp(Keyed(t, "room:" + u), r, 0)];
      && Channel(Keyed(t, "room:" + u), r) == Channel(t, u + ":room:" + r)
      && !Connected(ops, t, u + ":room:" + r, 0)
      && Writes(Run(ops), Channel(t, u + ":room:" + r), 0) == 1
  {
    var t', r' := Keyed(t, "room:" + u), u + ":room:" + r;
    var op := JoinOp(t', r, 0);
    assert Channel(t', r) == "tenant:" + t + ":room:" + u + ":room:" + r == Channel(t, r');
    assert |t'| > |t|;
    assert [op][..0] == [] && Run([op]) == Step(EMPTY, op);
    var s := Run([op]);
    assert s.consumers == [Item(Channel(t', r), RoomKey(t', r), 0)] && Inside(s, RoomKey(t', r), 0);
    assert Feeding(s, Channel(t, r'), 0) == {0};
  }

  /** Two accepted rooms with one key and two channels. */
  lemma KeyCollisionExample()
    ensures Trimmed("c") && Trimmed("b:c")
    ensures RoomKey("a:b", "c") == RoomKey("a", "b:c") && Channel("a:b", "c") != Channel("a", "b:c")
  {
    TrimmedEnds("c");
    TrimmedEnds("b:c");
    assert RoomKey("a:b", "c") == "a:b:c" == RoomKey("a", "b:c");
    assert Channel("a:b", "c")[9] == 'b' && Channel("a", "b:c")[9] == 'r';
  }

  /** Two accepted rooms with two keys and one channel. */
  lemma ChannelCollisionExample()
    ensures Trimmed("c") && Trimmed("b:room:c")
    ensures RoomKey("a:room:b", "c") != RoomKey("a", "b:room:c") && Channel("a:room:b", "c") == Channel("a", "b:room:c")
  {
    TrimmedEnds("c");
    TrimmedEnds("b:room:c");
    assert RoomKey("a:room:b", "c")[2] == 'r' && RoomKey("a", "b:room:c")[2] == 'b';
    assert Channel("a:room:b", "c") == "tenant:a:room:b:room:c" == Channel("a", "b:room:c");
  }

  /** Tenant ids with colons may be discernible, and even one that continues another
      is, if white space follows the colon. */
  lemma DiscernibleExamples()
    ensures Discernible("a:b", "c:d")
    ensures !Apart("a", "a: b") && Discernible("a", "a: b")
  {
    assert "a:b"[0] == 'a' && "c:d"[0] == 'c';
    assert ("a: b" + ":")[..2] == "a" + ":";
    assert "a: b"[2..] == " b" && |"a"| < |"a: b" + ":"|;
  }
}

/** At most one message per client message id: SETNX, create, and DEL on failure, run
    by any number of connections against one Redis. */
module Idempotency {
  import opened GoStrings
  import opened Keys

  const HOUR := 3_600_000_000_000
  const TTL := 24 * HOUR

  /** Whose message it is. */
  datatype Scope = Scope(tenant: string, room: string, user: string) {
    function Text(): string { Keyed(tenant, Keyed(room, user)) }
  }

  datatype MessageId = MessageId(scope: Scope, client: string)

  const KEY_PREFIX := "ws:message:idempotency:"

  /** wsMessageIdempotencyKey */
  function KeyOf(m: MessageId): string { KEY_PREFIX + Keyed(m.scope.Text(), m.client) }

  lemma KeyExample()
    ensures KeyOf(MessageId(Scope("t", "r", "u"), "c")) == "ws:message:idempotency:t:r:u:c"
  {
    assert Scope("t", "r", "u").Text() == "t:r:u";
  }

  datatype Phase =
    | Creating
    | Deleting
    | Succeeded(doneAt: int)
    | Failed

  /** A handler that was admitted by SETNX at `setAt`. */
  datatype Attempt = Attempt(id: MessageId, key: string, setAt: int, phase: Phase) {
    predicate InFlight() { phase.Creating? || phase.Deleting? }
  }

  datatype Lease = Lease(owner: nat, expiry: int)

  datatype World = World(now: int, keys: map<string, Lease>, attempts: seq<Attempt>)

  predicate Present(w: World, key: string) { key in w.keys && w.now < w.keys[key].expiry }

  datatype Action =
    | Tick(d: nat)
    | SetNX(id: MessageId, replyLost: bool)
    | CreateOk(a: nat)
    | CreateFails(a: nat)
    | Del(a: nat, ok: bool)

  function SetPhase(w: World, a: nat, p: Phase): World
    requires a < |w.attempts|
  {
    w.(attempts := w.attempts[a := w.attempts[a].(phase := p)])
  }

  /** One atomic step; an action that is not enabled changes nothing.  No key is set for
      a message without a client id.  A SETNX whose reply is lost has set the key, but
      its handler gives up. */
  function Do(w: World, action: Action): World {
    match action
    case Tick(d) => w.(now := w.now + d)
    case SetNX(id, lost) =>
      if id.client == "" || Present(w, KeyOf(id)) then w
      else World(w.now, w.keys[KeyOf(id) := Lease(|w.attempts|, w.now + TTL)],
                 w.attempts + [Attempt(id, KeyOf(id), w.now, if lost then Failed else Creating)])
    case CreateOk(a) =>
      if a < |w.attempts| && w.attempts[a].phase.Creating? then SetPhase(w, a, Succeeded(w.now)) else w
    case CreateFails(a) =>
      if a < |w.attempts| && w.attempts[a].phase.Creating? then SetPhase(w, a, Deleting) else w
    case Del(a, ok) =>
      if a < |w.attempts| && w.attempts[a].phase.Deleting? then
        var w' := SetPhase(w, a, Failed);
        if ok then w'.(keys := w'.keys - {w.attempts[a].key}) else w'
      else w
  }

  function Run(actions: seq<Action>): World {
    if actions == [] then World(0, map[], []) else Do(Run(actions[..|actions| - 1]), actions[|actions| - 1])
  }

  /** No handler is ever longer than `d` between its SETNX and its end. */
  ghost predicate Within(w: World, d: nat) {
    forall a :: 0 <= a < |w.attempts| && w.attempts[a].InFlight() ==> w.now <= w.attempts[a].setAt + d
  }

  ghost predicate RunWithin(actions: seq<Action>, d: nat) {
    forall k :: 0 <= k <= |actions| ==> Within(Run(actions[..k]), d)
  }

  /** No other success for the same id is reported during the life of a success's key. */
  ghost predicate AtMostOnce(w: World) {
    forall a, b :: 0 <= a < |w.attempts| && 0 <= b < |w.attempts| && a != b
      && w.attempts[a].id == w.attempts[b].id && w.attempts[a].phase.Succeeded? && w.attempts[b].phase.Succeeded?
      ==> !(w.attempts[a].setAt <= w.attempts[b].phase.doneAt < w.attempts[a].setAt + TTL)
  }

  // ---------- the invariant behind it ----------

  ghost predicate LeasesMatch(w: World) {
    forall k :: k in w.keys ==>
      && w.keys[k].owner < |w.attempts|
      && w.attempts[w.keys[k].owner].key == k
      && w.keys[k].expiry == w.attempts[w.keys[k].owner].setAt + TTL
  }

  ghost predicate Owns(w: World, a: nat)
    requires a < |w.attempts|
  {
    var k := w.attempts[a].key;
    k in w.keys && w.keys[k].owner == a
  }

  /** A handler in flight owns its key; a success owns it until it expires. */
  ghost predicate AttemptOk(w: World, a: nat)
    requires a < |w.attempts|
  {
    var t := w.attempts[a];
    && t.key == KeyOf(t.id) && t.setAt <= w.now
    && (t.InFlight() ==> Owns(w, a))
    && (t.phase.Succeeded? ==> t.setAt <= t.phase.doneAt < t.setAt + TTL && (Owns(w, a) || w.now >= t.setAt + TTL))
  }

  ghost predicate KeysHeld(w: World) {
    forall a :: 0 <= a < |w.attempts| ==> AttemptOk(w, a)
  }

  /** A later attempt on the same key starts only after a failure or after expiry. */
  predicate PairOk(first: Attempt, second: Attempt) {
    first.key == second.key ==>
      first.phase.Failed? || (first.phase.Succeeded? && second.setAt >= first.setAt + TTL)
  }

  ghost predicate Separated(w: World) {
    forall a, b :: 0 <= a < b < |w.attempts| ==> PairOk(w.attempts[a], w.attempts[b])
  }

  ghost predicate Inv(w: World) { LeasesMatch(w) && KeysHeld(w) && Separated(w) }

  lemma SetNXKeepsInv(w: World, id: MessageId, lost: bool)
    requires Inv(w) && Within(w, TTL - 1)
    ensures Inv(Do(w, SetNX(id, lost)))
  {
    var w' := Do(w, SetNX(id, lost));
    var key := KeyOf(id);
    if id.client != "" && !Present(w, key) {
      var n := |w.attempts|;
      forall a | 0 <= a < n ensures PairOk(w.attempts[a], w'.attempts[n]) && AttemptOk(w', a) {
        assert AttemptOk(w, a) && w'.attempts[a] == w.attempts[a];
        if w.attempts[a].key == key { FreeWhenAbsent(w, a); }
      }
      assert AttemptOk(w', n);
    }
  }

  /** An attempt whose key is absent is over, and a success has expired. */
  lemma FreeWhenAbsent(w: World, a: nat)
    requires LeasesMatch(w) && KeysHeld(w) && Within(w, TTL - 1)
    requires a < |w.attempts| && !Present(w, w.attempts[a].key)
    ensures !w.attempts[a].InFlight()
    ensures w.attempts[a].phase.Succeeded? ==> w.now >= w.attempts[a].setAt + TTL
  {
    assert AttemptOk(w, a);
  }

  lemma CreateKeepsInv(w: World, a: nat, ok: bool)
    requires Inv(w) && Within(w, TTL - 1) && a < |w.attempts| && w.attempts[a].phase.Creating?
    ensures Inv(SetPhase(w, a, if ok then Succeeded(w.now) else Deleting))
  {
    var w' := SetPhase(w, a, if ok then Succeeded(w.now) else Deleting);
    assert AttemptOk(w, a);
    forall b | 0 <= b < |w.attempts| ensures AttemptOk(w', b) {
      assert AttemptOk(w, b);
    }
    forall b, c | 0 <= b < c < |w.attempts| ensures PairOk(w'.attempts[b], w'.attempts[c]) {
      assert PairOk(w.attempts[b], w.attempts[c]);
    }
  }

  lemma DelKeepsInv(w: World, a: nat, ok: bool)
    requires Inv(w) && Within(w, TTL - 1) && a < |w.attempts| && w.attempts[a].phase.Deleting?
    ensures Inv(Do(w, Del(a, ok)))
  {
    var w' := Do(w, Del(a, ok));
    assert AttemptOk(w, a);
    forall b | 0 <= b < |w.attempts| ensures AttemptOk(w', b) {
      assert AttemptOk(w, b);
    }
    forall b, c | 0 <= b < c < |w.attempts| ensures PairOk(w'.attempts[b], w'.attempts[c]) {
      assert PairOk(w.attempts[b], w.attempts[c]);
    }
  }

  lemma DoKeepsInv(w: World, action: Action)
    requires Inv(w) && Within(w, TTL - 1)
    ensures Inv(Do(w, action))
  {
    match action {
      case Tick(d) =>
        forall a | 0 <= a < |w.attempts| ensures AttemptOk(Do(w, action), a) { assert AttemptOk(w, a); }
      case SetNX(id, lost) => SetNXKeepsInv(w, id, lost);
      case CreateOk(a) => if a < |w.attempts| && w.attempts[a].phase.Creating? { CreateKeepsInv(w, a, true); }
      case CreateFails(a) => if a < |w.attempts| && w.attempts[a].phase.Creating? { CreateKeepsInv(w, a, false); }
      case Del(a, ok) => if a < |w.attempts| && w.attempts[a].phase.Deleting? { DelKeepsInv(w, a, ok); }
    }
  }

  lemma {:induction false} RunKeepsInv(actions: seq<Action>, d: nat)
    requires RunWithin(actions, d) && d < TTL
    ensures Inv(Run(actions))
  {
    if actions != [] {
      var n := |actions| - 1;
      var before := actions[..n];
      forall k | 0 <= k <= n ensures Within(Run(before[..k]), d) { assert before[..k] == actions[..k]; }
      RunKeepsInv(before, d);
      assert Within(Run(actions[..n]), d);
      DoKeepsInv(Run(before), actions[n]);
    }
  }

  lemma InvIsAtMostOnce(w: World)
    requires Inv(w)
    ensures AtMostOnce(w)
  {
    forall a, b | 0 <= a < |w.attempts| && 0 <= b < |w.attempts| && a != b
      && w.attempts[a].id == w.attempts[b].id && w.attempts[a].phase.Succeeded? && w.attempts[b].phase.Succeeded?
      ensures !(w.attempts[a].setAt <= w.attempts[b].phase.doneAt < w.attempts[a].setAt + TTL)
    {
      assert AttemptOk(w, a) && AttemptOk(w, b);
      assert if a < b then PairOk(w.attempts[a], w.attempts[b]) else PairOk(w.attempts[b], w.attempts[a]);
    }
  }

  lemma RunEndsWithin(actions: seq<Action>, d: nat)
    requires RunWithin(actions, d)
    ensures Within(Run(actions), d)
  {
    assert actions[..|actions|] == actions;
  }

  /** While handlers stay within `d` < 24 h, a key is absent only if no handler for it
      is in flight and no success of the last 24 hours used it. */
  lemma AbsentMeansFree(actions: seq<Action>, d: nat, w: World, a: nat)
    requires RunWithin(actions, d) && d < TTL && w == Run(actions) && a < |w.attempts|
    requires !Present(w, KeyOf(w.attempts[a].id))
    ensures !w.attempts[a].InFlight()
    ensures w.attempts[a].phase.Succeeded? ==> w.now >= w.attempts[a].setAt + TTL
  {
    RunKeepsInv(actions, d);
    RunEndsWithin(actions, d);
    assert AttemptOk(w, a);
    FreeWhenAbsent(w, a);
  }

  predicate KeyFits(t: Attempt) { t.key == KeyOf(t.id) && t.id.client != "" }

  /** Keys belong to attempts, and attempts carry the key of their id. */
  ghost predicate WellKeyed(w: World) {
    LeasesMatch(w) && forall a :: 0 <= a < |w.attempts| ==> KeyFits(w.attempts[a])
  }

  lemma SetPhaseKeepsKeyed(w: World, a: nat, p: Phase)
    requires WellKeyed(w) && a < |w.attempts|
    ensures WellKeyed(SetPhase(w, a, p))
  {
    var w' := SetPhase(w, a, p);
    forall b | 0 <= b < |w.attempts|
      ensures w'.attempts[b].key == w.attempts[b].key && w'.attempts[b].setAt == w.attempts[b].setAt && KeyFits(w'.attempts[b])
    {
      assert KeyFits(w.attempts[b]);
    }
  }

  lemma SetNXKeepsKeyed(w: World, id: MessageId, lost: bool)
    requires WellKeyed(w)
    ensures WellKeyed(Do(w, SetNX(id, lost)))
  {
    var w' := Do(w, SetNX(id, lost));
    forall b | 0 <= b < |w'.attempts| ensures KeyFits(w'.attempts[b]) {
      assert b < |w.attempts| ==> KeyFits(w.attempts[b]) && w'.attempts[b] == w.attempts[b];
    }
  }

  lemma DoKeepsKeyed(w: World, action: Action)
    requires WellKeyed(w)
    ensures WellKeyed(Do(w, action))
  {
    match action {
      case Tick(d) =>
      case SetNX(id, lost) => SetNXKeepsKeyed(w, id, lost);
      case CreateOk(a) => if a < |w.attempts| { SetPhaseKeepsKeyed(w, a, Succeeded(w.now)); }
      case CreateFails(a) => if a < |w.attempts| { SetPhaseKeepsKeyed(w, a, Deleting); }
      case Del(a, ok) => if a < |w.attempts| { SetPhaseKeepsKeyed(w, a, Failed); }
    }
  }

  /** So it is after every run, whatever the interleaving and however long it takes. */
  lemma {:induction false} RunIsKeyed(actions: seq<Action>)
    ensures WellKeyed(Run(actions))
  {
    if actions != [] {
      RunIsKeyed(actions[..|actions| - 1]);
      DoKeepsKeyed(Run(actions[..|actions| - 1]), actions[|actions| - 1]);
    }
  }

  /** After every run, a failed create whose DEL succeeds re-admits the client's retry
      at once. */
  lemma RetryIsAdmitted(actions: seq<Action>, a: nat)
    requires a < |Run(actions).attempts| && Run(actions).attempts[a].phase.Deleting?
    ensures var w := Run(actions);
            var id := w.attempts[a].id;
            var retried := Do(Do(w, Del(a, true)), SetNX(id, false));
      |retried.attempts| == |w.attempts| + 1 && retried.attempts[|w.attempts|] == Attempt(id, KeyOf(id), w.now, Creating)
  {
    RunIsKeyed(actions);
    assert KeyFits(Run(actions).attempts[a]);
  }

  /** So a client whose create fails may try again: after every run, the failure leads to
      the DEL, a DEL that succeeds frees the key, and the same id is then admitted. */
  lemma FailedCreateReadmits(actions: seq<Action>, a: nat)
    requires a < |Run(actions).attempts| && Run(actions).attempts[a].phase == Creating
    ensures var w := Run(actions);
            var id := w.attempts[a].id;
            var freed := Do(Do(w, CreateFails(a)), Del(a, true));
            var retried := Do(freed, SetNX(id, false));
      && KeyOf(id) !in freed.keys && freed.attempts[a].phase == Failed
      && |retried.attempts| == |w.attempts| + 1 && retried.attempts[|w.attempts|] == Attempt(id, KeyOf(id), w.now, Creating)
  {
    RunIsKeyed(actions);
    assert KeyFits(Run(actions).attempts[a]);
  }

  /** If the DEL fails the key stays, and the retry is refused until it expires. */
  lemma FailedDelKeepsKey(w: World, a: nat)
    requires a < |w.attempts| && w.attempts[a].phase == Creating
    ensures Do(Do(w, CreateFails(a)), Del(a, false)).keys == w.keys
    ensures Do(w, CreateOk(a)).keys == w.keys && Do(w, CreateOk(a)).attempts[a].phase == Succeeded(w.now)
  {}

  /** A message with a client id is admitted exactly if its key is absent or expired;
      a refused one changes nothing. */
  lemma AdmittedIff(w: World, id: MessageId, lost: bool)
    ensures var w' := Do(w, SetNX(id, lost));
      && (|w'.attempts| == |w.attempts| + 1 <==> id.client != "" && !(KeyOf(id) in w.keys && w.now < w.keys[KeyOf(id)].expiry))
      && (|w'.attempts| != |w.attempts| + 1 ==> w' == w)
  {}

  /** A key lives for 24 hours, to the nanosecond. */
  lemma KeyLivesADay(w: World, id: MessageId, d: nat)
    requires id.client != "" && !Present(w, KeyOf(id))
    ensures Present(Do(Do(w, SetNX(id, false)), Tick(d)), KeyOf(id)) <==> d < 86_400_000_000_000
  {}

  ghost predicate Did(actions: seq<Action>, action: Action) { action in actions }

  /** The SETNX of attempt `a` lost its reply. */
  ghost predicate ReplyLost(actions: seq<Action>, a: nat) {
    exists i :: 0 <= i < |actions| && |Run(actions[..i]).attempts| == a && actions[i].SetNX? && actions[i].replyLost
  }

  /** What must have happened to an attempt in its phase: a failed one has had its DEL, or
      lost the reply to its SETNX. */
  ghost predicate Justified(actions: seq<Action>, a: nat, p: Phase) {
    match p
    case Creating => true
    case Deleting => Did(actions, CreateFails(a))
    case Succeeded(_) => Did(actions, CreateOk(a))
    case Failed => ReplyLost(actions, a) || (Did(actions, CreateFails(a)) && (Did(actions, Del(a, true)) || Did(actions, Del(a, false))))
  }

  lemma JustifiedLater(actions: seq<Action>, action: Action, a: nat, p: Phase)
    requires Justified(actions, a, p)
    ensures Justified(actions + [action], a, p)
  {
    var all := actions + [action];
    if p.Failed? && ReplyLost(actions, a) {
      var i :| 0 <= i < |actions| && |Run(actions[..i]).attempts| == a && actions[i].SetNX? && actions[i].replyLost;
      assert all[..i] == actions[..i] && all[i] == actions[i];
    }
  }

  /** How one step moves an attempt on. */
  lemma PhaseStep(w: World, action: Action, a: nat)
    requires a < |w.attempts|
    ensures a < |Do(w, action).attempts|
    ensures var p := w.attempts[a].phase;
      Do(w, action).attempts[a].phase ==
        if p.Creating? && action == CreateOk(a) then Succeeded(w.now)
        else if p.Creating? && action == CreateFails(a) then Deleting
        else if p.Deleting? && action.Del? && action.a == a then Failed
        else p
  {}

  lemma NewAttempt(w: World, action: Action, a: nat)
    requires |w.attempts| <= a < |Do(w, action).attempts|
    ensures a == |w.attempts| && action.SetNX?
    ensures Do(w, action).attempts[a].phase == if action.replyLost then Failed else Creating
  {}

  lemma {:induction false} PhaseHistory(actions: seq<Action>, a: nat)
    requires a < |Run(actions).attempts|
    ensures Justified(actions, a, Run(actions).attempts[a].phase)
  {
    if actions != [] {
      var before, action := actions[..|actions| - 1], actions[|actions| - 1];
      assert actions == before + [action];
      if a < |Run(before).attempts| {
        PhaseHistory(before, a);
        PhaseStep(Run(before), action, a);
        PhaseJustified(before, action, a, Run(before).attempts[a].phase, Run(actions).attempts[a].phase);
      } else {
        NewAttempt(Run(before), action, a);
        assert actions[..|before|] == before && actions[|before|] == action;
      }
    }
  }

  lemma PhaseJustified(before: seq<Action>, action: Action, a: nat, p: Phase, p': Phase)
    requires Justified(before, a, p)
    requires
      || p' == p
      || (p.Creating? && action == CreateOk(a) && p'.Succeeded?)
      || (p.Creating? && action == CreateFails(a) && p' == Deleting)
      || (p.Deleting? && action.Del? && action.a == a && p' == Failed)
    ensures Justified(before + [action], a, p')
  {
    JustifiedLater(before, action, a, p);
    assert action in before + [action];
    if p.Deleting? && p'.Failed? { assert action == Del(a, true) || action == Del(a, false); }
  }

  // ---------- who can be turned away ----------

  /** The scopes' keys cannot be confused, for trimmed client ids. */
  predicate Separate(s: Scope, t: Scope) {
    s == t || (s.Text() != t.Text() && Discernible(s.Text(), t.Text()))
  }

  lemma KeyInjective(m: MessageId, n: MessageId)
    requires Separate(m.scope, n.scope) && Trimmed(m.client) && Trimmed(n.client) && KeyOf(m) == KeyOf(n)
    ensures m == n
  {
    assert Keyed(m.scope.Text(), m.client) == KeyOf(m)[|KEY_PREFIX|..] == KeyOf(n)[|KEY_PREFIX|..] == Keyed(n.scope.Text(), n.client);
    TrimmedStart(m.client);
    TrimmedStart(n.client);
    DiscernibleKeys(m.scope.Text(), m.client, n.scope.Text(), n.client);
  }

  lemma SharedKey(s: Scope, t: Scope) returns (m: MessageId, n: MessageId)
    requires !Separate(s, t)
    ensures m.scope == s && n.scope == t && KeyOf(m) == KeyOf(n) && Trimmed(m.client) && Trimmed(n.client)
  {
    if s.Text() == t.Text() {
      TrimmedEnds("c");
      m, n := MessageId(s, "c"), MessageId(t, "c");
    } else {
      var x, y := TrimmedCollision(s.Text(), t.Text());
      m, n := MessageId(s, x), MessageId(t, y);
    }
  }

  /** Colon-free ids are separate. */
  lemma ColonFreeSeparate(s: Scope, t: Scope)
    requires ColonFree(s.tenant) && ColonFree(s.room) && ColonFree(s.user)
    requires ColonFree(t.tenant) && ColonFree(t.room) && ColonFree(t.user)
    ensures Separate(s, t)
  {
    if !Separate(s, t) {
      var m, n := SharedKey(s, t);
      assert Keyed(s.Text(), m.client) == KeyOf(m)[|KEY_PREFIX|..] == KeyOf(n)[|KEY_PREFIX|..] == Keyed(t.Text(), n.client);
      Unfold(s, m.client);
      Unfold(t, n.client);
      ColonFreeApart(s.tenant, t.tenant);
      KeyedInjective(s.tenant, Keyed(s.room, Keyed(s.user, m.client)), t.tenant, Keyed(t.room, Keyed(t.user, n.client)));
      ColonFreeApart(s.room, t.room);
      KeyedInjective(s.room, Keyed(s.user, m.client), t.room, Keyed(t.user, n.client));
      ColonFreeApart(s.user, t.user);
      KeyedInjective(s.user, m.client, t.user, n.client);
    }
  }

  lemma Unfold(s: Scope, client: string)
    ensures Keyed(s.Text(), client) == Keyed(s.tenant, Keyed(s.room, Keyed(s.user, client)))
  {}

  /** Messages of these senders; parseWSMessagePayload trims the client id. */
  ghost predicate ScopesIn(actions: seq<Action>, scopes: set<Scope>) {
    forall i :: 0 <= i < |actions| && actions[i].SetNX? ==>
      actions[i].id.scope in scopes && (actions[i].id.client == "" || Trimmed(actions[i].id.client))
  }

  /** The message is answered with "duplicate client_msg_id". */
  predicate Refused(w: World, m: MessageId) { m.client != "" && Present(w, KeyOf(m)) }

  /** The key was set for this very message. */
  predicate SetFor(w: World, m: MessageId) {
    KeyOf(m) in w.keys && w.keys[KeyOf(m)].owner < |w.attempts| && w.attempts[w.keys[KeyOf(m)].owner].id == m
  }

  /** A message is refused as a duplicate only on account of itself. */
  ghost predicate OnlyRepeatsRefused(scopes: set<Scope>) {
    forall actions: seq<Action>, m: MessageId ::
      ScopesIn(actions, scopes) && m.scope in scopes && Trimmed(m.client) && Refused(Run(actions), m) ==> SetFor(Run(actions), m)
  }

  ghost predicate AllSeparate(scopes: set<Scope>) {
    forall s, t :: s in scopes && t in scopes ==> Separate(s, t)
  }

  lemma {:induction false} AttemptsInScope(actions: seq<Action>, scopes: set<Scope>)
    requires ScopesIn(actions, scopes)
    ensures forall a :: 0 <= a < |Run(actions).attempts| ==>
      Run(actions).attempts[a].id.scope in scopes && Trimmed(Run(actions).attempts[a].id.client)
  {
    if actions != [] {
      var before, action := actions[..|actions| - 1], actions[|actions| - 1];
      assert forall i :: 0 <= i < |before| ==> before[i] == actions[i];
      AttemptsInScope(before, scopes);
      var w := Run(before);
      forall a | 0 <= a < |Do(w, action).attempts| ensures Do(w, action).attempts[a].id.scope in scopes && Trimmed(Do(w, action).attempts[a].id.client) {
        if a < |w.attempts| { assert Do(w, action).attempts[a].id == w.attempts[a].id; }
      }
    }
  }

  /** No message is ever turned away as the duplicate of another one, in any run of the
      given senders, if and only if their scopes are pairwise separate. */
  lemma OnlyRepeatsRefusedIff(scopes: set<Scope>)
    ensures OnlyRepeatsRefused(scopes) <==> AllSeparate(scopes)
  {
    if AllSeparate(scopes) {
      forall actions: seq<Action>, m: MessageId
        | ScopesIn(actions, scopes) && m.scope in scopes && Trimmed(m.client) && Refused(Run(actions), m)
        ensures SetFor(Run(actions), m)
      {
        RunIsKeyed(actions);
        AttemptsInScope(actions, scopes);
        var a := Run(actions).keys[KeyOf(m)].owner;
        assert KeyFits(Run(actions).attempts[a]);
        KeyInjective(Run(actions).attempts[a].id, m);
      }
    } else {
      var s, t :| s in scopes && t in scopes && !Separate(s, t);
      var m, n := SharedKey(s, t);
      CrossRefusal(m, n);
      assert ScopesIn([SetNX(m, false)], scopes);
    }
  }

  lemma CrossRefusal(m: MessageId, n: MessageId)
    requires m != n && KeyOf(m) == KeyOf(n) && m.client != "" && n.client != ""
    ensures var w := Run([SetNX(m, false)]); Refused(w, n) && !SetFor(w, n)
  {
    var first := SetNX(m, false);
    assert [first][..0] == [];
    assert Run([first]) == Do(World(0, map[], []), first);
  }

  /** User "a" cannot send "b:c" once user "a:b" has sent "c". */
  lemma CrossRefusalExample()
    ensures var m, n := MessageId(Scope("t", "r", "a:b"), "c"), MessageId(Scope("t", "r", "a"), "b:c");
      && Trimmed(m.client) && Trimmed(n.client) && !Separate(m.scope, n.scope)
      && Refused(Run([SetNX(m, false)]), n) && !SetFor(Run([SetNX(m, false)]), n)
  {
    var m, n := MessageId(Scope("t", "r", "a:b"), "c"), MessageId(Scope("t", "r", "a"), "b:c");
    TrimmedEnds("c");
    TrimmedEnds("b:c");
    assert m.scope.Text() == "t:r:a:b" && n.scope.Text() == "t:r:a";
    assert "t:r:a:b"[..6] == "t:r:a" + ":" && "t:r:a:b"[6..] == "b";
    assert Keyed("t:r:a:b", "c") == "t:r:a:b:c" == Keyed("t:r:a", "b:c");
    CrossRefusal(m, n);
  }

  // ---------- exactly how long a handler may take ----------

  ghost predicate SafeWithin(d: nat) {
    forall actions: seq<Action> :: RunWithin(actions, d) ==> AtMostOnce(Run(actions))
  }

  const SAMPLE := MessageId(Scope("t", "r", "u"), "c")

  /** Two handlers for one id; the first outlives its key. */
  const OVERRUN := [SetNX(SAMPLE, false), Tick(TTL), SetNX(SAMPLE, false), CreateOk(0), CreateOk(1)]

  lemma OverrunStates()
    ensures var k := KeyOf(SAMPLE);
      && Run(OVERRUN[..0]) == World(0, map[], [])
      && Run(OVERRUN[..1]) == World(0, map[k := Lease(0, TTL)], [Attempt(SAMPLE, k, 0, Creating)])
      && Run(OVERRUN[..2]) == World(TTL, map[k := Lease(0, TTL)], [Attempt(SAMPLE, k, 0, Creating)])
      && Run(OVERRUN[..3]) == World(TTL, map[k := Lease(1, TTL + TTL)], [Attempt(SAMPLE, k, 0, Creating), Attempt(SAMPLE, k, TTL, Creating)])
      && Run(OVERRUN[..4]) == World(TTL, map[k := Lease(1, TTL + TTL)], [Attempt(SAMPLE, k, 0, Succeeded(TTL)), Attempt(SAMPLE, k, TTL, Creating)])
      && Run(OVERRUN[..5]) == World(TTL, map[k := Lease(1, TTL + TTL)], [Attempt(SAMPLE, k, 0, Succeeded(TTL)), Attempt(SAMPLE, k, TTL, Succeeded(TTL))])
  {
    var k := KeyOf(SAMPLE);
    var r := OVERRUN;
    assert r[..1][..0] == r[..0] && r[..2][..1] == r[..1] && r[..3][..2] == r[..2] && r[..4][..3] == r[..3] && r[..5][..4] == r[..4];
    var w1 := Do(World(0, map[], []), r[0]);
    assert w1 == World(0, map[k := Lease(0, TTL)], [Attempt(SAMPLE, k, 0, Creating)]);
    assert Run(r[..1]) == w1;
    var w2 := Do(w1, r[1]);
    assert Run(r[..2]) == w2;
    var w3 := Do(w2, r[2]);
    assert w3.keys == map[k := Lease(1, TTL + TTL)];
    assert Run(r[..3]) == w3;
    var w4 := Do(w3, r[3]);
    assert Run(r[..4]) == w4;
    var w5 := Do(w4, r[4]);
    assert Run(r[..5]) == w5;
  }

  lemma OverrunBreaks(d: nat)
    requires d >= TTL
    ensures RunWithin(OVERRUN, d) && !AtMostOnce(Run(OVERRUN))
  {
    OverrunStates();
    assert OVERRUN[..5] == OVERRUN;
    forall k | 0 <= k <= |OVERRUN| ensures Within(Run(OVERRUN[..k]), d) {
      assert k == 0 || k == 1 || k == 2 || k == 3 || k == 4 || k == 5;
    }
    var w := Run(OVERRUN);
    assert w.attempts[1].setAt <= w.attempts[0].phase.doneAt < w.attempts[1].setAt + TTL;
  }

  /** Over any interleaving, at most one create per client message id succeeds in the
      life of a key, exactly when every handler, its DEL included, ends within
      less than the key's 24 hours. */
  lemma AtMostOnceIff(d: nat)
    ensures SafeWithin(d) <==> d < 86_400_000_000_000
  {
    if d < TTL {
      forall actions: seq<Action> | RunWithin(actions, d) ensures AtMostOnce(Run(actions)) {
        RunKeepsInv(actions, d);
        InvIsAtMostOnce(Run(actions));
      }
    } else {
      OverrunBreaks(d);
    }
  }
}
