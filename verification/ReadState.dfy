/** Messages, read marks and unread counts (server/dbman/repository/chat_repository.go). */
module ReadState {
  import opened GoStrings
  import opened Sets
  import opened Pagination

  datatype RoomId = RoomId(tenant: string, room: string)

  datatype Message = Message(room: RoomId, sender: string, createdAt: int)

  datatype Read = Read(room: RoomId, readAt: int)

  /** messages by message_id; message_reads by (message_id, user_id). */
  datatype Db = Db(messages: map<string, Message>, marks: map<(string, string), Read>)

  const EMPTY := Db(map[], map[])

  const EPOCH := 0

  function Create(db: Db, id: string, room: RoomId, sender: string, now: int): Db {
    if id in db.messages then db else db.(messages := db.messages[id := Message(room, sender, now)])
  }

  /** (created_at, message_id) <= (created_at, message_id), row-wise. */
  predicate UpTo(lt: (string, string) -> bool, db: Db, id: string, target: string)
    requires id in db.messages && target in db.messages
  {
    var c, t := db.messages[id].createdAt, db.messages[target].createdAt;
    c < t || (c == t && (id == target || lt(id, target)))
  }

  predicate CanMark(db: Db, room: RoomId, target: string) {
    target in db.messages && db.messages[target].room == room
  }

  /** The rows MarkReadUpTo writes; none when the target is not in the room. */
  function Marked(db: Db, lt: (string, string) -> bool, room: RoomId, target: string): set<string> {
    if !CanMark(db, room, target) then {}
    else set id | id in db.messages && db.messages[id].room == room && UpTo(lt, db, id, target)
  }

  function Mark(db: Db, lt: (string, string) -> bool, room: RoomId, user: string, target: string, now: int): Db {
    db.(marks := db.marks + map id | id in Marked(db, lt, room, target) :: (id, user) := Read(room, now))
  }

  class ChatTables {
    var messages: map<string, Message>
    var marks: map<(string, string), Read>
    const lt: (string, string) -> bool

    ghost function View(): Db reads this { Db(messages, marks) }

    constructor (lt: (string, string) -> bool)
      ensures View() == EMPTY && this.lt == lt
    {
      messages, marks := map[], map[];
      this.lt := lt;
    }

    method CreateMessage(id: string, room: RoomId, sender: string, now: int) returns (ok: bool)
      modifies this
      ensures View() == Create(old(View()), id, room, sender, now) && ok == (id !in old(messages))
    {
      if id in messages { return false; }
      messages := messages[id := Message(room, sender, now)];
      return true;
    }

    method MarkReadUpTo(room: RoomId, user: string, target: string, now: int) returns (ok: bool)
      modifies this
      ensures View() == Mark(old(View()), lt, room, user, target, now)
      ensures ok == CanMark(old(View()), room, target)
    {
      var db := Db(messages, marks);
      var rows := Marked(db, lt, room, target);
      if CanMark(db, room, target) { assert target in rows; }
      marks := marks + map id | id in rows :: (id, user) := Read(room, now);
      ok := rows != {};
    }
  }

  /** A repeated id is refused and changes nothing; a new one adds just its message. */
  lemma CreateEffect(db: Db, id: string, room: RoomId, sender: string, now: int)
    ensures id in db.messages ==> Create(db, id, room, sender, now) == db
    ensures id !in db.messages ==> Create(db, id, room, sender, now) == Db(db.messages[id := Message(room, sender, now)], db.marks)
  {}

  // ---------- unread ----------

  ghost function ReadTimes(db: Db, room: RoomId, user: string): set<int> {
    set k | k in db.marks && k.1 == user && db.marks[k].room == room :: db.marks[k].readAt
  }

  /** The condition shared by GetUnreadCount, GetUnreadCounts and ListMyRooms. */
  ghost function Unread(db: Db, room: RoomId, user: string): set<string> {
    set id | id in db.messages && db.messages[id].room == room && db.messages[id].sender != user
             && db.messages[id].createdAt > MaxOr(ReadTimes(db, room, user), EPOCH)
  }

  // ---------- runs ----------

  datatype Op =
    | CreateOp(id: string, room: RoomId, sender: string, at: int)
    | MarkOp(room: RoomId, user: string, target: string, at: int)

  function Step(db: Db, lt: (string, string) -> bool, op: Op): Db {
    match op
    case CreateOp(id, room, sender, at) => Create(db, id, room, sender, at)
    case MarkOp(room, user, target, at) => Mark(db, lt, room, user, target, at)
  }

  function Run(lt: (string, string) -> bool, ops: seq<Op>): Db {
    if ops == [] then EMPTY else Step(Run(lt, ops[..|ops| - 1]), lt, ops[|ops| - 1])
  }

  ghost predicate Monotone(ops: seq<Op>) {
    forall i, j :: 0 <= i < j < |ops| ==> ops[i].at <= ops[j].at
  }

  /** Generated ids never repeat. */
  ghost predicate FreshIds(ops: seq<Op>) {
    forall i, j :: 0 <= i < j < |ops| && ops[i].CreateOp? && ops[j].CreateOp? ==> ops[i].id != ops[j].id
  }

  /** The message was posted in that room. */
  predicate Posted(ops: seq<Op>, id: string, room: RoomId) {
    exists i :: 0 <= i < |ops| && ops[i].CreateOp? && ops[i].id == id && ops[i].room == room
  }

  /** Time of the user's last successful mark in the room: one whose message had
      been posted there. */
  function LastMark(ops: seq<Op>, room: RoomId, user: string): Option<int> {
    if ops == [] then None
    else
      var before, op := ops[..|ops| - 1], ops[|ops| - 1];
      if op.MarkOp? && op.room == room && op.user == user && Posted(before, op.target, room)
      then Some(op.at) else LastMark(before, room, user)
  }

  lemma PrefixFacts(ops: seq<Op>)
    requires ops != [] && Monotone(ops) && FreshIds(ops)
    ensures Monotone(ops[..|ops| - 1]) && FreshIds(ops[..|ops| - 1])
  {
    var before := ops[..|ops| - 1];
    assert forall i :: 0 <= i < |before| ==> before[i] == ops[i];
  }

  /** The message table is exactly what was posted. */
  lemma {:induction false} MessagesArePosted(lt: (string, string) -> bool, ops: seq<Op>)
    requires FreshIds(ops)
    ensures forall i :: 0 <= i < |ops| && ops[i].CreateOp? ==>
      ops[i].id in Run(lt, ops).messages && Run(lt, ops).messages[ops[i].id] == Message(ops[i].room, ops[i].sender, ops[i].at)
    ensures forall id :: id in Run(lt, ops).messages ==> exists i :: 0 <= i < |ops| && ops[i].CreateOp? && ops[i].id == id
  {
    if ops != [] {
      var n := |ops| - 1;
      var before := ops[..n];
      assert forall i :: 0 <= i < n ==> before[i] == ops[i];
      MessagesArePosted(lt, before);
      var db := Run(lt, before);
      assert ops[n].CreateOp? ==> ops[n].id !in db.messages;
      forall id | id in Run(lt, ops).messages ensures exists i :: 0 <= i < |ops| && ops[i].CreateOp? && ops[i].id == id {
        if id in db.messages {
          var i :| 0 <= i < n && before[i].CreateOp? && before[i].id == id;
          assert ops[i].id == id;
        } else {
          assert ops[n].id == id;
        }
      }
    }
  }

  lemma CanMarkIffPosted(lt: (string, string) -> bool, ops: seq<Op>, room: RoomId, target: string)
    requires FreshIds(ops)
    ensures CanMark(Run(lt, ops), room, target) <==> Posted(ops, target, room)
  {
    MessagesArePosted(lt, ops);
    if target in Run(lt, ops).messages {
      var i :| 0 <= i < |ops| && ops[i].CreateOp? && ops[i].id == target;
      if Posted(ops, target, room) {
        var j :| 0 <= j < |ops| && ops[j].CreateOp? && ops[j].id == target && ops[j].room == room;
        assert i == j;
      }
    }
  }

  // ---------- every read row is at least as late as its message ----------

  ghost predicate ReadsValid(db: Db, now: int) {
    && (forall id :: id in db.messages ==> db.messages[id].createdAt <= now)
    && (forall k :: k in db.marks ==>
          && k.0 in db.messages && db.marks[k].room == db.messages[k.0].room
          && db.messages[k.0].createdAt <= db.marks[k].readAt <= now)
  }

  lemma {:induction false} ReadAfterCreated(lt: (string, string) -> bool, ops: seq<Op>, now: int)
    requires Monotone(ops) && forall i :: 0 <= i < |ops| ==> ops[i].at <= now
    ensures ReadsValid(Run(lt, ops), now)
  {
    if ops != [] {
      var n := |ops| - 1;
      var before := ops[..n];
      assert forall i :: 0 <= i < n ==> before[i] == ops[i];
      ReadAfterCreated(lt, before, ops[n].at);
      StepKeepsReadsValid(Run(lt, before), lt, ops[n], now);
    }
  }

  lemma StepKeepsReadsValid(db: Db, lt: (string, string) -> bool, op: Op, now: int)
    requires ReadsValid(db, op.at) && op.at <= now
    ensures ReadsValid(Step(db, lt, op), now)
  {}

  // ---------- unread counts follow the last successful mark ----------

  /** The user's newest read mark in the room is the time of the last successful mark. */
  ghost predicate NewestIs(times: set<int>, mark: Option<int>) {
    if mark.None? then times == {} else IsMax(mark.value, times)
  }

  /** The read rows after a mark. */
  lemma MarkRows(db: Db, lt: (string, string) -> bool, op: Op)
    requires op.MarkOp?
    ensures var after, rows := Step(db, lt, op).marks, Marked(db, lt, op.room, op.target);
      && (forall k :: k in after <==> k in db.marks || (k.1 == op.user && k.0 in rows))
      && (forall k :: k in after ==>
            after[k] == if k.1 == op.user && k.0 in rows then Read(op.room, op.at) else db.marks[k])
  {}

  lemma MarkTimes(db: Db, lt: (string, string) -> bool, op: Op, room: RoomId, user: string)
    requires op.MarkOp? && ReadsValid(db, op.at)
    requires op.room == room && op.user == user && CanMark(db, room, op.target)
    ensures IsMax(op.at, ReadTimes(Step(db, lt, op), room, user))
  {
    MarkRows(db, lt, op);
    var after := Step(db, lt, op).marks;
    assert op.target in Marked(db, lt, room, op.target);
    assert (op.target, user) in after && after[(op.target, user)] == Read(room, op.at);
  }

  lemma OtherMarkTimes(db: Db, lt: (string, string) -> bool, op: Op, room: RoomId, user: string)
    requires op.MarkOp? && ReadsValid(db, op.at)
    requires !(op.room == room && op.user == user && CanMark(db, room, op.target))
    ensures ReadTimes(Step(db, lt, op), room, user) == ReadTimes(db, room, user)
  {
    MarkRows(db, lt, op);
    var db', rows := Step(db, lt, op), Marked(db, lt, op.room, op.target);
    forall t ensures t in ReadTimes(db', room, user) <==> t in ReadTimes(db, room, user) {
      if t in ReadTimes(db, room, user) {
        var k :| k in db.marks && k.1 == user && db.marks[k].room == room && db.marks[k].readAt == t;
        assert !(k.1 == op.user && k.0 in rows);
        assert k in db'.marks && db'.marks[k] == db.marks[k];
      }
      if t in ReadTimes(db', room, user) {
        var k :| k in db'.marks && k.1 == user && db'.marks[k].room == room && db'.marks[k].readAt == t;
        assert !(k.1 == op.user && k.0 in rows);
      }
    }
  }

  lemma {:induction false} NewestReadIsLastMark(lt: (string, string) -> bool, ops: seq<Op>, room: RoomId, user: string)
    requires Monotone(ops) && FreshIds(ops)
    ensures NewestIs(ReadTimes(Run(lt, ops), room, user), LastMark(ops, room, user))
  {
    if ops != [] {
      var n := |ops| - 1;
      var before, op := ops[..n], ops[n];
      PrefixFacts(ops);
      NewestReadIsLastMark(lt, before, room, user);
      assert forall i :: 0 <= i < n ==> before[i] == ops[i];
      if op.MarkOp? {
        ReadAfterCreated(lt, before, op.at);
        CanMarkIffPosted(lt, before, room, op.target);
        if op.room == room && op.user == user && Posted(before, op.target, room) {
          MarkTimes(Run(lt, before), lt, op, room, user);
        } else {
          OtherMarkTimes(Run(lt, before), lt, op, room, user);
        }
      } else {
        assert ReadTimes(Run(lt, ops), room, user) == ReadTimes(Run(lt, before), room, user);
      }
    }
  }

  /** The ids posted by others strictly after an instant. */
  ghost function PostedAfter(ops: seq<Op>, room: RoomId, user: string, since: int): set<string> {
    set i | 0 <= i < |ops| && ops[i].CreateOp? && ops[i].room == room && ops[i].sender != user && ops[i].at > since :: ops[i].id
  }

  /** Unread is exactly what others posted after the user's last successful mark in
      the room, whichever message that mark named. */
  lemma UnreadIsSinceLastMark(lt: (string, string) -> bool, ops: seq<Op>, room: RoomId, user: string)
    requires Monotone(ops) && FreshIds(ops)
    ensures var mark := LastMark(ops, room, user);
      Unread(Run(lt, ops), room, user) == PostedAfter(ops, room, user, if mark.Some? then mark.value else EPOCH)
  {
    var mark := LastMark(ops, room, user);
    var since := if mark.Some? then mark.value else EPOCH;
    var db := Run(lt, ops);
    NewestReadIsLastMark(lt, ops, room, user);
    MessagesArePosted(lt, ops);
    assert MaxOr(ReadTimes(db, room, user), EPOCH) == since;
    forall id ensures id in Unread(db, room, user) <==> id in PostedAfter(ops, room, user, since) {
      if id in Unread(db, room, user) {
        var i :| 0 <= i < |ops| && ops[i].CreateOp? && ops[i].id == id;
      }
      if id in PostedAfter(ops, room, user, since) {
        var i :| 0 <= i < |ops| && ops[i].CreateOp? && ops[i].room == room && ops[i].sender != user && ops[i].at > since && ops[i].id == id;
      }
    }
  }

  /** Even marking the oldest message leaves nothing unread, and so does posting:
      CreateMessage marks the new message for its sender. */
  lemma MarkClearsUnread(lt: (string, string) -> bool, before: seq<Op>, op: Op)
    requires Monotone(before + [op]) && FreshIds(before + [op])
    requires op.MarkOp? && Posted(before, op.target, op.room)
    ensures Unread(Run(lt, before + [op]), op.room, op.user) == {}
  {
    var ops := before + [op];
    assert ops[..|before|] == before;
    UnreadIsSinceLastMark(lt, ops, op.room, op.user);
    NothingPostedAfter(ops, op.room, op.user, op.at);
  }

  lemma NothingPostedAfter(ops: seq<Op>, room: RoomId, user: string, since: int)
    requires forall i :: 0 <= i < |ops| ==> ops[i].at <= since
    ensures PostedAfter(ops, room, user, since) == {}
  {}

  // ---------- what a user has read is a prefix of the room ----------

  ghost predicate HasRead(db: Db, id: string, user: string) { (id, user) in db.marks }

  /** Everything up to a read message has been read, in (created_at, message_id) order. */
  ghost predicate PrefixRead(db: Db, lt: (string, string) -> bool, room: RoomId, user: string) {
    forall id, earlier ::
      id in db.messages && earlier in db.messages && db.messages[id].room == room && db.messages[earlier].room == room
      && HasRead(db, id, user) && UpTo(lt, db, earlier, id)
      ==> HasRead(db, earlier, user)
  }

  lemma UpToTransitive(lt: (string, string) -> bool, db: Db, a: string, b: string, c: string)
    requires TotalOrder(lt) && a in db.messages && b in db.messages && c in db.messages
    requires UpTo(lt, db, a, b) && UpTo(lt, db, b, c)
    ensures UpTo(lt, db, a, c)
  {}

  lemma MarkKeepsPrefix(db: Db, lt: (string, string) -> bool, room: RoomId, user: string, op: Op)
    requires TotalOrder(lt) && op.MarkOp? && PrefixRead(db, lt, room, user)
    ensures PrefixRead(Step(db, lt, op), lt, room, user)
  {
    var db' := Step(db, lt, op);
    var rows := Marked(db, lt, op.room, op.target);
    assert forall k :: k in db'.marks <==> k in db.marks || (k.1 == op.user && k.0 in rows);
    forall id, earlier |
      id in db.messages && earlier in db.messages && db.messages[id].room == room && db.messages[earlier].room == room
      && HasRead(db', id, user) && UpTo(lt, db, earlier, id)
      ensures HasRead(db', earlier, user)
    {
      if HasRead(db, id, user) {
        assert HasRead(db, earlier, user);
      } else {
        UpToTransitive(lt, db, earlier, id, op.target);
        assert earlier in rows;
      }
    }
  }

  /** Posting keeps the prefix property exactly when no message the user has read in
      that room sorts after the new one. */
  lemma CreateKeepsPrefixIff(db: Db, lt: (string, string) -> bool, room: RoomId, user: string, id: string, sender: string, now: int)
    requires TotalOrder(lt) && PrefixRead(db, lt, room, user) && ReadsValid(db, now) && id !in db.messages
    ensures var db' := Create(db, id, room, sender, now);
      PrefixRead(db', lt, room, user) <==>
        forall m :: m in db.messages && db.messages[m].room == room && HasRead(db, m, user) ==> !UpTo(lt, db', id, m)
  {
    var db' := Create(db, id, room, sender, now);
    assert !HasRead(db', id, user);
    assert forall m, n :: m in db.messages && n in db.messages ==> UpTo(lt, db', m, n) == UpTo(lt, db, m, n);
    assert forall m :: HasRead(db', m, user) <==> HasRead(db, m, user);
  }

  ghost predicate StrictClock(ops: seq<Op>) {
    forall i, j :: 0 <= i < j < |ops| ==> ops[i].at < ops[j].at
  }

  lemma PostKeepsPrefix(db: Db, lt: (string, string) -> bool, room: RoomId, user: string, op: Op, now: int)
    requires TotalOrder(lt) && op.CreateOp? && PrefixRead(db, lt, room, user) && ReadsValid(db, now) && now < op.at
    ensures PrefixRead(Step(db, lt, op), lt, room, user)
  {
    if op.id !in db.messages {
      var db' := Step(db, lt, op);
      assert forall m, n :: m in db.messages && n in db.messages ==> UpTo(lt, db', m, n) == UpTo(lt, db, m, n);
      forall id, earlier |
        id in db'.messages && earlier in db'.messages && db'.messages[id].room == room && db'.messages[earlier].room == room
        && HasRead(db', id, user) && UpTo(lt, db', earlier, id)
        ensures HasRead(db', earlier, user)
      {
        assert (id, user) in db.marks && id in db.messages;
        assert HasRead(db, id, user);
      }
    }
  }

  /** With strictly increasing timestamps the messages a user has read are always a
      prefix of the room's history. */
  lemma {:induction false} ReadSetIsPrefix(lt: (string, string) -> bool, ops: seq<Op>, room: RoomId, user: string)
    requires TotalOrder(lt) && StrictClock(ops)
    ensures PrefixRead(Run(lt, ops), lt, room, user)
  {
    if ops != [] {
      var n := |ops| - 1;
      var before, op := ops[..n], ops[n];
      assert forall i :: 0 <= i < n ==> before[i] == ops[i];
      ReadSetIsPrefix(lt, before, room, user);
      if op.MarkOp? {
        MarkKeepsPrefix(Run(lt, before), lt, room, user, op);
      } else {
        ReadAfterCreated(lt, before, op.at - 1);
        PostKeepsPrefix(Run(lt, before), lt, room, user, op, op.at - 1);
      }
    }
  }

  // ---------- who has read what, and when ----------

  /** When the message was posted in the room. */
  function PostTime(ops: seq<Op>, id: string, room: RoomId): Option<int> {
    if ops == [] then None
    else
      var op := ops[|ops| - 1];
      if op.CreateOp? && op.id == id && op.room == room then Some(op.at) else PostTime(ops[..|ops| - 1], id, room)
  }

  /** The mark named a message of the room, and this one is not after it in the room's
      order of time, then id. */
  predicate Covers(lt: (string, string) -> bool, before: seq<Op>, room: RoomId, target: string, id: string) {
    var p, q := PostTime(before, id, room), PostTime(before, target, room);
    && p.Some? && q.Some?
    && (p.value < q.value || (p.value == q.value && (id == target || lt(id, target))))
  }

  /** Time of the user's last mark that covers the message. */
  function ReadTime(lt: (string, string) -> bool, ops: seq<Op>, id: string, user: string): Option<int> {
    if ops == [] then None
    else
      var before, op := ops[..|ops| - 1], ops[|ops| - 1];
      if op.MarkOp? && op.user == user && Covers(lt, before, op.room, op.target, id) then Some(op.at)
      else ReadTime(lt, before, id, user)
  }

  lemma {:induction false} PostTimeIsStored(lt: (string, string) -> bool, ops: seq<Op>, id: string, room: RoomId)
    requires FreshIds(ops)
    ensures var db, p := Run(lt, ops), PostTime(ops, id, room);
      && (p.Some? <==> id in db.messages && db.messages[id].room == room)
      && (p.Some? ==> db.messages[id].createdAt == p.value)
  {
    if ops != [] {
      var before := ops[..|ops| - 1];
      assert forall i :: 0 <= i < |before| ==> before[i] == ops[i];
      PostTimeIsStored(lt, before, id, room);
      if ops[|ops| - 1].CreateOp? { NotYetPosted(lt, ops); }
    }
  }

  lemma NotYetPosted(lt: (string, string) -> bool, ops: seq<Op>)
    requires FreshIds(ops) && ops != [] && ops[|ops| - 1].CreateOp?
    ensures ops[|ops| - 1].id !in Run(lt, ops[..|ops| - 1]).messages
  {
    var before := ops[..|ops| - 1];
    assert forall i :: 0 <= i < |before| ==> before[i] == ops[i];
    MessagesArePosted(lt, before);
  }

  lemma MarkedIsCovered(lt: (string, string) -> bool, before: seq<Op>, room: RoomId, target: string, id: string)
    requires FreshIds(before)
    ensures id in Marked(Run(lt, before), lt, room, target) <==> Covers(lt, before, room, target, id)
  {
    PostTimeIsStored(lt, before, id, room);
    PostTimeIsStored(lt, before, target, room);
  }

  /** After every run a user has read exactly the messages that one of the user's marks
      covers, at the time of the last such mark. */
  lemma {:induction false} ReadIsLastCover(lt: (string, string) -> bool, ops: seq<Op>, id: string, user: string)
    requires FreshIds(ops)
    ensures var db, t := Run(lt, ops), ReadTime(lt, ops, id, user);
      && (HasRead(db, id, user) <==> t.Some?)
      && (t.Some? ==> db.marks[(id, user)].readAt == t.value)
  {
    if ops != [] {
      var before, op := ops[..|ops| - 1], ops[|ops| - 1];
      assert forall i :: 0 <= i < |before| ==> before[i] == ops[i];
      ReadIsLastCover(lt, before, id, user);
      if op.MarkOp? {
        MarkRows(Run(lt, before), lt, op);
        MarkedIsCovered(lt, before, op.room, op.target, id);
        assert (id, user) in Run(lt, ops).marks <==>
          (id, user) in Run(lt, before).marks || (user == op.user && id in Marked(Run(lt, before), lt, op.room, op.target));
      }
    }
  }

  // ---------- the three unread queries ----------

  /** room_members, chat_rooms and users, as far as the joins look at them. */
  datatype Directory = Directory(members: set<(RoomId, string)>, rooms: set<RoomId>, users: set<(string, string)>)

  /** GetUnreadCount, whose sub-queries name the room by its three arguments. */
  ghost function UnreadCount(db: Db, tenant: string, room: string, user: string): nat {
    var times := set k | k in db.marks && db.marks[k].room.tenant == tenant && db.marks[k].room.room == room && k.1 == user
                   :: db.marks[k].readAt;
    |set id | id in db.messages && db.messages[id].room.tenant == tenant && db.messages[id].room.room == room
              && db.messages[id].sender != user && db.messages[id].createdAt > MaxOr(times, EPOCH)|
  }

  predicate Mine(m: (RoomId, string), tenant: string, user: string) { m.0.tenant == tenant && m.1 == user }

  /** The correlated sub-query of GetUnreadCounts, on a membership row. */
  ghost function MembershipUnread(db: Db, tenant: string, user: string, rm: (RoomId, string)): nat {
    var times := set k | k in db.marks && k.1 == user && db.marks[k].room == RoomId(tenant, rm.0.room) :: db.marks[k].readAt;
    |set id | id in db.messages && db.messages[id].room == RoomId(tenant, rm.0.room)
              && db.messages[id].sender != user && db.messages[id].createdAt > MaxOr(times, EPOCH)|
  }

  /** GetUnreadCounts: one row per membership. */
  ghost function UnreadCounts(db: Db, dir: Directory, tenant: string, user: string): map<string, nat> {
    map m | m in dir.members && Mine(m, tenant, user) :: m.0.room := MembershipUnread(db, tenant, user, m)
  }

  /** The sub-query of ListMyRooms, on a chat_rooms row. */
  ghost function RoomUnread(db: Db, user: string, cr: RoomId): nat {
    var times := set k | k in db.marks && db.marks[k].room == cr && k.1 == user :: db.marks[k].readAt;
    |set id | id in db.messages && db.messages[id].room == cr
              && db.messages[id].createdAt > MaxOr(times, EPOCH) && db.messages[id].sender != user|
  }

  /** The unread column of ListMyRooms: rooms joined with the user's memberships, for a
      user that exists. */
  ghost function MyRoomsUnread(db: Db, dir: Directory, tenant: string, user: string): map<string, nat> {
    map cr | cr in dir.rooms && cr.tenant == tenant && (cr, user) in dir.members && (tenant, user) in dir.users
      :: cr.room := RoomUnread(db, user, cr)
  }

  /** Every membership of the user has its room, and its user. */
  ghost predicate Joined(dir: Directory, tenant: string, user: string) {
    forall m :: m in dir.members && Mine(m, tenant, user) ==> m.0 in dir.rooms && (tenant, user) in dir.users
  }

  lemma SameReads(db: Db, tenant: string, room: string, user: string)
    ensures (set k | k in db.marks && db.marks[k].room.tenant == tenant && db.marks[k].room.room == room && k.1 == user :: db.marks[k].readAt)
         == ReadTimes(db, RoomId(tenant, room), user)
    ensures (set k | k in db.marks && k.1 == user && db.marks[k].room == RoomId(tenant, room) :: db.marks[k].readAt)
         == ReadTimes(db, RoomId(tenant, room), user)
    ensures (set k | k in db.marks && db.marks[k].room == RoomId(tenant, room) && k.1 == user :: db.marks[k].readAt)
         == ReadTimes(db, RoomId(tenant, room), user)
  {}

  /** On one room the three sub-queries count the same messages. */
  lemma SubQueriesAgree(db: Db, tenant: string, room: string, user: string)
    ensures UnreadCount(db, tenant, room, user) == |Unread(db, RoomId(tenant, room), user)|
    ensures MembershipUnread(db, tenant, user, (RoomId(tenant, room), user)) == |Unread(db, RoomId(tenant, room), user)|
    ensures RoomUnread(db, user, RoomId(tenant, room)) == |Unread(db, RoomId(tenant, room), user)|
  {
    SameReads(db, tenant, room, user);
    var since := MaxOr(ReadTimes(db, RoomId(tenant, room), user), EPOCH);
    assert (set id | id in db.messages && db.messages[id].room.tenant == tenant && db.messages[id].room.room == room
                     && db.messages[id].sender != user && db.messages[id].createdAt > since)
        == Unread(db, RoomId(tenant, room), user);
    assert (set id | id in db.messages && db.messages[id].room == RoomId(tenant, room)
                     && db.messages[id].createdAt > since && db.messages[id].sender != user)
        == Unread(db, RoomId(tenant, room), user);
  }

  /** Wherever two of the queries report a room they report the same number, the
      number of messages others posted since the user's last successful mark; they
      report the same rooms exactly when every membership has its room and its user. */
  lemma UnreadQueriesAgree(lt: (string, string) -> bool, ops: seq<Op>, dir: Directory, tenant: string, user: string)
    requires Monotone(ops) && FreshIds(ops)
    ensures var db := Run(lt, ops);
            var counts, mine := UnreadCounts(db, dir, tenant, user), MyRoomsUnread(db, dir, tenant, user);
      && mine.Keys <= counts.Keys
      && (forall r :: r in counts ==>
            counts[r] == UnreadCount(db, tenant, r, user) == |PostedSinceMark(ops, RoomId(tenant, r), user)|)
      && (forall r :: r in mine ==> mine[r] == counts[r])
      && (mine == counts <==> Joined(dir, tenant, user))
  {
    var db := Run(lt, ops);
    var counts, mine := UnreadCounts(db, dir, tenant, user), MyRoomsUnread(db, dir, tenant, user);
    QueryRooms(db, dir, tenant, user);
    forall r | r in counts
      ensures counts[r] == UnreadCount(db, tenant, r, user) == |PostedSinceMark(ops, RoomId(tenant, r), user)|
      ensures r in mine ==> mine[r] == counts[r]
    {
      SubQueriesAgree(db, tenant, r, user);
      UnreadIsSinceLastMark(lt, ops, RoomId(tenant, r), user);
    }
  }

  ghost function PostedSinceMark(ops: seq<Op>, room: RoomId, user: string): set<string> {
    var mark := LastMark(ops, room, user);
    PostedAfter(ops, room, user, if mark.Some? then mark.value else EPOCH)
  }

  /** Which rooms the two lists report, and with which sub-query. */
  lemma QueryRooms(db: Db, dir: Directory, tenant: string, user: string)
    ensures var counts, mine := UnreadCounts(db, dir, tenant, user), MyRoomsUnread(db, dir, tenant, user);
      && (forall r :: r in counts <==> (RoomId(tenant, r), user) in dir.members)
      && (forall r :: r in mine <==> (RoomId(tenant, r), user) in dir.members && RoomId(tenant, r) in dir.rooms && (tenant, user) in dir.users)
      && (forall r :: r in counts ==> counts[r] == MembershipUnread(db, tenant, user, (RoomId(tenant, r), user)))
      && (forall r :: r in mine ==> mine[r] == RoomUnread(db, user, RoomId(tenant, r)))
      && (mine.Keys == counts.Keys <==> Joined(dir, tenant, user))
  {
    var counts, mine := UnreadCounts(db, dir, tenant, user), MyRoomsUnread(db, dir, tenant, user);
    forall r
      ensures r in counts <==> (RoomId(tenant, r), user) in dir.members
      ensures r in mine <==> (RoomId(tenant, r), user) in dir.members && RoomId(tenant, r) in dir.rooms && (tenant, user) in dir.users
    {
      assert Mine((RoomId(tenant, r), user), tenant, user);
    }
    forall m | m in dir.members && Mine(m, tenant, user) ensures m.0.room in counts && m == (RoomId(tenant, m.0.room), user) {}
  }
}
