/** The list endpoints as a client drives them: string cursors in, string
    cursors out, until the next cursor comes back empty. */
module ListService {
  import opened GoStrings
  import opened Pagination
  import Cursor
  import Decimal

  datatype Response<+K> = Rejected | Listed(items: seq<K>, nextCursor: string)

  /** ListMessages, ListMyRooms and ListAliasAudit up to their key type and codec. */
  ghost function Respond<K(!new)>(rows: set<K>, lt: (K, K) -> bool, enc: K -> string, dec: string -> Option<K>,
                                  limits: Limits, limit: int, cursor: string): Response<K>
    requires TotalOrder(lt) && limits.Valid()
  {
    if !IsBlank(cursor) && dec(cursor).None? then Rejected
    else
      var after := if IsBlank(cursor) then None else dec(cursor);
      var p := FetchPage(rows, lt, after, limits.PageSize(limit), limits.FetchSize(limit));
      Listed(p.items, if p.next.None? then "" else enc(p.next.value))
  }

  /** `pages` is what a client collects from `cursor` on. */
  ghost predicate ClientSees<K(!new)>(rows: set<K>, lt: (K, K) -> bool, enc: K -> string, dec: string -> Option<K>,
                                      limits: Limits, limit: int, cursor: string, pages: seq<seq<K>>)
    requires TotalOrder(lt) && limits.Valid()
    decreases |pages|
  {
    && pages != []
    && var r := Respond(rows, lt, enc, dec, limits, limit, cursor);
    && r.Listed? && pages[0] == r.items
    && if r.nextCursor == "" then |pages| == 1
       else ClientSees(rows, lt, enc, dec, limits, limit, r.nextCursor, pages[1..])
  }

  ghost predicate Survives<K>(k: K, enc: K -> string, dec: string -> Option<K>) {
    dec(enc(k)) == Some(k) && !IsBlank(enc(k))
  }

  /** Every key of the table survives the cursor codec. */
  ghost predicate Faithful<K(!new)>(rows: set<K>, enc: K -> string, dec: string -> Option<K>) {
    forall k :: k in rows ==> Survives(k, enc, dec)
  }

  /** What a client collects is determined by the cursor it starts from. */
  lemma {:induction false} ClientSeesUnique<K(!new)>(
      rows: set<K>, lt: (K, K) -> bool, enc: K -> string, dec: string -> Option<K>,
      limits: Limits, limit: int, cursor: string, pages: seq<seq<K>>, pages': seq<seq<K>>)
    requires TotalOrder(lt) && limits.Valid()
    requires ClientSees(rows, lt, enc, dec, limits, limit, cursor, pages)
    requires ClientSees(rows, lt, enc, dec, limits, limit, cursor, pages')
    ensures pages == pages'
    decreases |pages|
  {
    var next := Respond(rows, lt, enc, dec, limits, limit, cursor).nextCursor;
    if next != "" {
      ClientSeesUnique(rows, lt, enc, dec, limits, limit, next, pages[1..], pages'[1..]);
      assert pages == [pages[0]] + pages[1..];
      assert pages' == [pages'[0]] + pages'[1..];
    }
  }

  /** Passing cursors through the codec changes nothing: a client sees the pages
      obtained by following the keys themselves. */
  lemma {:induction false} ClientSeesFollow<K(!new)>(
      rows: set<K>, lt: (K, K) -> bool, enc: K -> string, dec: string -> Option<K>,
      limits: Limits, limit: int, after: Option<K>)
    requires TotalOrder(lt) && limits.Valid() && Faithful(rows, enc, dec)
    requires after.Some? ==> after.value in rows
    ensures ClientSees(rows, lt, enc, dec, limits, limit, if after.None? then "" else enc(after.value),
                       Follow(rows, lt, after, limits.PageSize(limit), limits.FetchSize(limit)))
    decreases |Eligible(rows, lt, after)|
  {
    var size, fetch := limits.PageSize(limit), limits.FetchSize(limit);
    var p := FetchPage(rows, lt, after, size, fetch);
    var pages := Follow(rows, lt, after, size, fetch);
    ClientSeesStep(rows, lt, enc, dec, limits, limit, after, pages);
    if p.next.Some? {
      NextIsRow(rows, lt, after, size, fetch);
      FollowStep(rows, lt, after, size, fetch);
      ClientSeesFollow(rows, lt, enc, dec, limits, limit, p.next);
      assert pages[1..] == Follow(rows, lt, p.next, size, fetch);
    }
  }

  /** One request of the client, in terms of keys. */
  lemma ClientSeesStep<K(!new)>(rows: set<K>, lt: (K, K) -> bool, enc: K -> string, dec: string -> Option<K>,
                                limits: Limits, limit: int, after: Option<K>, pages: seq<seq<K>>)
    requires TotalOrder(lt) && limits.Valid() && Faithful(rows, enc, dec)
    requires after.Some? ==> after.value in rows
    ensures var cursor := if after.None? then "" else enc(after.value);
            var p := FetchPage(rows, lt, after, limits.PageSize(limit), limits.FetchSize(limit));
      ClientSees(rows, lt, enc, dec, limits, limit, cursor, pages) <==>
        && pages != [] && pages[0] == p.items
        && if p.next.None? then |pages| == 1
           else ClientSees(rows, lt, enc, dec, limits, limit, enc(p.next.value), pages[1..])
  {
    RespondToKey(rows, lt, enc, dec, limits, limit, after);
  }

  lemma RespondToKey<K(!new)>(rows: set<K>, lt: (K, K) -> bool, enc: K -> string, dec: string -> Option<K>,
                              limits: Limits, limit: int, after: Option<K>)
    requires TotalOrder(lt) && limits.Valid() && Faithful(rows, enc, dec)
    requires after.Some? ==> Survives(after.value, enc, dec)
    ensures var cursor := if after.None? then "" else enc(after.value);
            var p := FetchPage(rows, lt, after, limits.PageSize(limit), limits.FetchSize(limit));
      && Respond(rows, lt, enc, dec, limits, limit, cursor)
         == Listed(p.items, if p.next.None? then "" else enc(p.next.value))
      && (p.next.Some? ==> enc(p.next.value) != "")
  {
    assert IsBlank("");
    var p := FetchPage(rows, lt, after, limits.PageSize(limit), limits.FetchSize(limit));
    if p.next.Some? {
      NextIsRow(rows, lt, after, limits.PageSize(limit), limits.FetchSize(limit));
      assert Survives(p.next.value, enc, dec);
    }
  }

  /** `pages`, and nothing else, is what a client collects from the start. */
  ghost predicate CollectsOnly<K(!new)>(rows: set<K>, lt: (K, K) -> bool, enc: K -> string, dec: string -> Option<K>,
                                        limits: Limits, limit: int, pages: seq<seq<K>>)
    requires TotalOrder(lt) && limits.Valid()
  {
    forall seen :: ClientSees(rows, lt, enc, dec, limits, limit, "", seen) <==> seen == pages
  }

  lemma Collected<K(!new)>(rows: set<K>, lt: (K, K) -> bool, enc: K -> string, dec: string -> Option<K>, limits: Limits, limit: int)
    returns (pages: seq<seq<K>>)
    requires TotalOrder(lt) && limits.Valid() && Faithful(rows, enc, dec)
    ensures pages == Follow(rows, lt, None, limits.PageSize(limit), limits.FetchSize(limit))
    ensures CollectsOnly(rows, lt, enc, dec, limits, limit, pages)
  {
    pages := Follow(rows, lt, None, limits.PageSize(limit), limits.FetchSize(limit));
    ClientSeesFollow(rows, lt, enc, dec, limits, limit, None);
    forall seen | ClientSees(rows, lt, enc, dec, limits, limit, "", seen) ensures seen == pages {
      ClientSeesUnique(rows, lt, enc, dec, limits, limit, "", seen, pages);
    }
  }

  /** What a client collects from a table that changes: request i, with the cursor of
      the answer before it, is answered from tables[i]. */
  ghost function Walk<K(!new)>(tables: seq<set<K>>, lt: (K, K) -> bool, enc: K -> string, dec: string -> Option<K>,
                               limits: Limits, limit: int, cursor: string): Progress<K>
    requires TotalOrder(lt) && limits.Valid()
  {
    if tables == [] then Progress([], false)
    else match Respond(tables[0], lt, enc, dec, limits, limit, cursor)
      case Rejected => Progress([], false)
      case Listed(items, next) =>
        if next == "" then Progress([items], true)
        else
          var rest := Walk(tables[1..], lt, enc, dec, limits, limit, next);
          Progress([items] + rest.pages, rest.finished)
  }

  ghost predicate AllFaithful<K(!new)>(tables: seq<set<K>>, enc: K -> string, dec: string -> Option<K>) {
    forall i :: 0 <= i < |tables| ==> Faithful(tables[i], enc, dec)
  }

  /** On a changing table, too, cursors may go through the codec unnoticed. */
  lemma {:induction false} WalkFollows<K(!new)>(
      tables: seq<set<K>>, lt: (K, K) -> bool, enc: K -> string, dec: string -> Option<K>,
      limits: Limits, limit: int, after: Option<K>)
    requires TotalOrder(lt) && limits.Valid() && AllFaithful(tables, enc, dec)
    requires after.Some? ==> Survives(after.value, enc, dec)
    ensures Walk(tables, lt, enc, dec, limits, limit, if after.None? then "" else enc(after.value))
         == FollowLive(tables, lt, after, limits.PageSize(limit), limits.FetchSize(limit))
    decreases |tables|
  {
    if tables != [] {
      var size, fetch := limits.PageSize(limit), limits.FetchSize(limit);
      assert Faithful(tables[0], enc, dec);
      RespondToKey(tables[0], lt, enc, dec, limits, limit, after);
      var p := FetchPage(tables[0], lt, after, size, fetch);
      if p.next.Some? {
        NextIsRow(tables[0], lt, after, size, fetch);
        assert Survives(p.next.value, enc, dec);
        WalkFollows(tables[1..], lt, enc, dec, limits, limit, p.next);
      }
    }
  }

  /** One request with any cursor: the largest keys below it, as many as were asked for,
      and a next cursor exactly if there are more. */
  lemma PageBelow<K(!new)>(rows: set<K>, lt: (K, K) -> bool, enc: K -> string, dec: string -> Option<K>, limit: int, cursor: string, k: K)
    requires TotalOrder(lt) && 1 <= limit <= 199 && Faithful(rows, enc, dec)
    requires !IsBlank(cursor) && dec(cursor) == Some(k)
    ensures var below := set x | x in rows && lt(x, k);
            var r := Respond(rows, lt, enc, dec, LIST_LIMITS, limit, cursor);
      && r.Listed?
      && r.items == (if |below| <= limit then Ordered(below, lt) else Ordered(below, lt)[..limit])
      && (r.nextCursor == "" <==> |below| <= limit)
      && (|below| > limit ==> r.nextCursor == enc(r.items[limit - 1]))
  {
    PageSizes(limit);
    assert Eligible(rows, lt, Some(k)) == set x | x in rows && lt(x, k);
    FetchPageShape(rows, lt, Some(k), limit);
    var p := FetchPage(rows, lt, Some(k), limit, limit + 1);
    if p.next.Some? {
      NextIsRow(rows, lt, Some(k), limit, limit + 1);
      SurvivorNotEmpty(p.next.value, enc, dec);
    }
  }

  lemma SurvivorNotEmpty<K>(k: K, enc: K -> string, dec: string -> Option<K>)
    requires Survives(k, enc, dec)
    ensures enc(k) != ""
  {
    assert IsBlank("");
  }

  /** A cursor that cannot be decoded is rejected, whatever the limit. */
  lemma BadCursorIsRejected<K(!new)>(rows: set<K>, lt: (K, K) -> bool, enc: K -> string, dec: string -> Option<K>, limit: int, cursor: string)
    requires TotalOrder(lt)
    ensures Respond(rows, lt, enc, dec, LIST_LIMITS, limit, cursor).Rejected? <==> !IsBlank(cursor) && dec(cursor).None?
  {}

  // ---------- messages ----------

  ghost predicate UsableId(id: string) { IsBytes(id) && Trimmed(id) }

  /** Listing a room's messages end to end: a client collects one definite sequence
      of pages, which are all messages in descending id order exactly when the limit
      is not 200 or at most fifty messages exist. */
  lemma MessageListing(ids: set<string>, lt: (string, string) -> bool, limit: int) returns (pages: seq<seq<string>>)
    requires TotalOrder(lt) && forall id :: id in ids ==> UsableId(id)
    ensures CollectsOnly(ids, lt, Cursor.EncodeId, Cursor.DecodeId, LIST_LIMITS, limit, pages)
    ensures Concat(pages) == Ordered(ids, lt) <==> limit != 200 || |ids| <= 50
    ensures 1 <= limit <= 199 ==> Paged(pages, |ids|, limit)
    ensures limit <= 0 || limit > 200 ==> Paged(pages, |ids|, 50)
    ensures limit == 200 ==> pages == [FirstFifty(ids, lt)]
  {
    IdsAreFaithful(ids);
    pages := Collected(ids, lt, Cursor.EncodeId, Cursor.DecodeId, LIST_LIMITS, limit);
    ListIsExactIff(ids, lt, limit);
  }

  lemma IdsAreFaithful(ids: set<string>)
    requires forall id :: id in ids ==> UsableId(id)
    ensures Faithful(ids, Cursor.EncodeId, Cursor.DecodeId)
  {
    forall id | id in ids ensures Survives(id, Cursor.EncodeId, Cursor.DecodeId) {
      Cursor.MessageCursorRoundTrip(id);
      Cursor.Base64Url.EncodedIsNotBlank(id);
    }
  }

  /** Listing while messages are posted: nothing repeats and the order is kept; a client
      that reaches the last page has seen every message of the first moment, exactly when
      the limit is not 200 or at most fifty messages were there. */
  lemma LiveMessageListing(tables: seq<set<string>>, lt: (string, string) -> bool, limit: int)
    requires TotalOrder(lt) && tables != [] && Growing(tables[0], tables)
    requires forall i, id :: 0 <= i < |tables| && id in tables[i] ==> UsableId(id)
    ensures var seen := Walk(tables, lt, Cursor.EncodeId, Cursor.DecodeId, LIST_LIMITS, limit, "");
            var items := Concat(seen.pages);
      && Descending(items, lt)
      && (seen.finished ==> ((forall id :: id in tables[0] ==> id in items) <==> limit != 200 || |tables[0]| <= 50))
  {
    forall i | 0 <= i < |tables| ensures Faithful(tables[i], Cursor.EncodeId, Cursor.DecodeId) {
      IdsAreFaithful(tables[i]);
    }
    WalkFollows(tables, lt, Cursor.EncodeId, Cursor.DecodeId, LIST_LIMITS, limit, None);
    LiveListing(tables, lt, limit);
  }

  /** Searching, end to end, for every limit: `pages` is what the cursors lead to, and
      with the first page re-ranked by any hits a client has every match exactly once. */
  lemma SearchListing(matches: set<string>, lt: (string, string) -> bool, limit: int, hits: set<string>)
    returns (pages: seq<seq<string>>)
    requires TotalOrder(lt) && forall id :: id in matches ==> UsableId(id)
    ensures CollectsOnly(matches, lt, Cursor.EncodeId, Cursor.DecodeId, SEARCH_LIMITS, limit, pages)
    ensures pages != [] && multiset(Concat([Reranked(pages[0], hits)] + pages[1..])) == multiset(matches)
    ensures 1 <= limit <= 100 ==> Paged(pages, |matches|, limit)
    ensures limit <= 0 || limit > 100 ==> Paged(pages, |matches|, 30)
  {
    IdsAreFaithful(matches);
    pages := Collected(matches, lt, Cursor.EncodeId, Cursor.DecodeId, SEARCH_LIMITS, limit);
    SearchIsExact(matches, lt, limit, hits);
  }

  // ---------- rooms and audit entries: time first, then id ----------

  datatype TimedKey = TimedKey(at: int, id: string)

  ghost predicate UsableKey(k: TimedKey) { Decimal.IsInt64(k.at) && UsableId(k.id) }

  /** (created_at, id) in the row-wise order of the cursor conditions. */
  function TimedLt(idLt: (string, string) -> bool): (lt: (TimedKey, TimedKey) -> bool)
    ensures forall a, b :: lt(a, b) == (a.at < b.at || (a.at == b.at && idLt(a.id, b.id)))
    ensures TotalOrder(idLt) ==> TotalOrder(lt)
  {
    (a: TimedKey, b: TimedKey) => a.at < b.at || (a.at == b.at && idLt(a.id, b.id))
  }

  function EncodeKey(k: TimedKey): string { Cursor.EncodeTimed(k.at, k.id) }

  function DecodeKey(cursor: string): Option<TimedKey> {
    match Cursor.DecodeTimed(cursor)
    case None => None
    case Some((at, id)) => Some(TimedKey(at, id))
  }

  lemma KeysAreFaithful(keys: set<TimedKey>)
    requires forall k :: k in keys ==> UsableKey(k)
    ensures Faithful(keys, EncodeKey, DecodeKey)
  {
    forall k | k in keys ensures Survives(k, EncodeKey, DecodeKey) {
      Cursor.TimedCursorRoundTrip(k.at, k.id);
      Cursor.Base64Url.EncodedIsNotBlank(Cursor.Pair(k.at, k.id));
    }
  }

  /** Room list and alias audit list, end to end. */
  lemma TimedListing(keys: set<TimedKey>, idLt: (string, string) -> bool, limit: int) returns (pages: seq<seq<TimedKey>>)
    requires TotalOrder(idLt) && forall k :: k in keys ==> UsableKey(k)
    ensures CollectsOnly(keys, TimedLt(idLt), EncodeKey, DecodeKey, LIST_LIMITS, limit, pages)
    ensures Concat(pages) == Ordered(keys, TimedLt(idLt)) <==> limit != 200 || |keys| <= 50
    ensures 1 <= limit <= 199 ==> Paged(pages, |keys|, limit)
    ensures limit <= 0 || limit > 200 ==> Paged(pages, |keys|, 50)
    ensures limit == 200 ==> pages == [FirstFifty(keys, TimedLt(idLt))]
  {
    KeysAreFaithful(keys);
    pages := Collected(keys, TimedLt(idLt), EncodeKey, DecodeKey, LIST_LIMITS, limit);
    ListIsExactIff(keys, TimedLt(idLt), limit);
  }

  datatype Room = Room(createdAt: int, latestMessageAt: Option<int>)

  /** COALESCE(lm.created_at, cr.created_at) in the query; roomCursorTime in the service. */
  function RoomTime(room: Room): int {
    if room.latestMessageAt.Some? then room.latestMessageAt.value else room.createdAt
  }

  ghost function RoomKeys(rooms: map<string, Room>): set<TimedKey> {
    set id | id in rooms :: TimedKey(RoomTime(rooms[id]), id)
  }

  /** A user's room list is in order of recent activity without repetition, and it shows
      every room exactly when the limit is not 200 or there are at most fifty rooms. */
  lemma RoomListing(rooms: map<string, Room>, idLt: (string, string) -> bool, limit: int) returns (pages: seq<seq<TimedKey>>)
    requires TotalOrder(idLt)
    requires forall id :: id in rooms ==> UsableKey(TimedKey(RoomTime(rooms[id]), id))
    ensures CollectsOnly(RoomKeys(rooms), TimedLt(idLt), EncodeKey, DecodeKey, LIST_LIMITS, limit, pages)
    ensures Descending(Concat(pages), TimedLt(idLt))
    ensures |Concat(pages)| == |rooms| <==> limit != 200 || |rooms| <= 50
    ensures (forall id :: id in rooms ==> Shows(Concat(pages), id, rooms[id])) <==> limit != 200 || |rooms| <= 50
    ensures 1 <= limit <= 199 ==> Paged(pages, |rooms|, limit)
    ensures limit <= 0 || limit > 200 ==> Paged(pages, |rooms|, 50)
  {
    var keys, lt := RoomKeys(rooms), TimedLt(idLt);
    pages := TimedListing(keys, idLt, limit);
    KeyCount(rooms);
    RoomsAreKeys(rooms, Concat(pages));
    if limit != 200 {
      OrderedIsEnumeration(keys, lt);
    } else {
      ConcatOne(FirstFifty(keys, lt));
      FirstFiftyInOrder(keys, lt);
      if |rooms| > 50 { var k := FirstFiftyMisses(keys, lt); }
    }
  }

  /** The room is listed at the time of its latest message, or of its creation if it has none. */
  predicate Shows(items: seq<TimedKey>, id: string, room: Room) {
    TimedKey(if room.latestMessageAt.Some? then room.latestMessageAt.value else room.createdAt, id) in items
  }

  lemma RoomsAreKeys(rooms: map<string, Room>, items: seq<TimedKey>)
    ensures (forall id :: id in rooms ==> Shows(items, id, rooms[id]))
       <==> (forall k :: k in RoomKeys(rooms) ==> k in items)
  {
    forall id | id in rooms ensures TimedKey(RoomTime(rooms[id]), id) in RoomKeys(rooms) {}
  }

  lemma {:induction false} KeyCount(rooms: map<string, Room>)
    ensures |RoomKeys(rooms)| == |rooms|
    decreases |rooms|
  {
    if rooms != map[] {
      var id :| id in rooms;
      var rest := rooms - {id};
      assert rest.Keys == rooms.Keys - {id};
      var key := TimedKey(RoomTime(rooms[id]), id);
      KeyCount(rest);
      forall k ensures k in RoomKeys(rooms) <==> k in RoomKeys(rest) + {key} {
        if k in RoomKeys(rooms) {
          var i :| i in rooms && k == TimedKey(RoomTime(rooms[i]), i);
          assert i != id ==> i in rest && rest[i] == rooms[i];
        }
      }
      assert RoomKeys(rooms) == RoomKeys(rest) + {key};
      assert key !in RoomKeys(rest);
    }
  }
}
