/**
 Paging through a tenant's audit records: query_audit_logs of
 src/sre_dashboard/services/dynamodb.py behind list_audits of src/sre_dashboard/routes/audits.py, over
 a table that answers queries as DynamoDB promises to.
 */
module AuditPaging {
  import opened Wrappers
  import opened CursorCodec
  import opened TextOrder
  import opened Powers
  import opened PythonText

  /** An audit item, with the numbers in it, nested ones included, as Decimals. */
  datatype Item = Item(time: string, serviceName: Option<string>, serviceId: Option<string>, numbers: seq<real>)

  datatype Record = Record(service: Option<string>, item: Item)

  datatype Response = Failed | Page(items: seq<Item>, next: Option<Cursor>)

  /** The query of one tenant with one limit, by exclusive start key. */
  type Server = Option<Cursor> -> Response

  // ---- The source ----

  predicate Given(text: Option<string>) { text.Some? && text.value != "" }

  /** item.get("service_name") or item.get("service_id") */
  function ServiceOf(item: Item): Option<string> {
    if Given(item.serviceName) then item.serviceName else item.serviceId
  }

  function Matching(items: seq<Item>, service: Option<string>): seq<Item> {
    if |items| == 0 then []
    else (if !Given(service) || ServiceOf(items[0]) == service then [items[0]] else []) + Matching(items[1..], service)
  }

  function First(items: seq<Item>, n: nat): seq<Item> { if n < |items| then items[..n] else items }

  /**
   Whether an item can be turned into JSON.  The remainder of a Decimal by 1 raises when its whole part
   has more digits than the default context, 28; nothing else in the conversion raises on a number.
   */
  predicate Readable(item: Item) {
    forall x :: x in item.numbers ==> -(Power(10, 28) as real) < x < Power(10, 28) as real
  }

  predicate AllReadable(items: seq<Item>) { forall i :: i in items ==> Readable(i) }

  function ToRecords(items: seq<Item>): seq<Record> {
    if |items| == 0 then [] else [Record(ServiceOf(items[0]), items[0])] + ToRecords(items[1..])
  }

  type Answer = (seq<Record>, Option<Cursor>)

  const NOTHING: Answer := ([], None)

  /** One unreadable item among those shown costs the whole page, and the cursor to the next. */
  function Show(items: seq<Item>, limit: nat, next: Option<Cursor>): Answer {
    if AllReadable(First(items, limit)) then (ToRecords(First(items, limit)), next) else NOTHING
  }

  /** The start key after walking over so many pages, None where the walk ends early. */
  function Walk(server: Server, start: Option<Cursor>, page: nat): Option<Option<Cursor>>
    decreases page
  {
    if page == 0 then Some(start)
    else
      match server(start)
      case Failed => None
      case Page(_, next) => if StartKey(next).None? then None else Walk(server, next, page - 1)
  }

  function AnswerAt(server: Server, service: Option<string>, limit: nat, start: Option<Cursor>): Answer {
    match server(start)
    case Failed => NOTHING
    case Page(items, next) => Show(Matching(items, service), limit, next)
  }

  function AuditLogs(server: Server, service: Option<string>, limit: nat, cursor: Option<Cursor>, page: nat): Answer {
    match Walk(server, StartKey(cursor), page)
    case None => NOTHING
    case Some(start) => AnswerAt(server, service, limit, start)
  }

  /** The page walk; None where it ends early. */
  method WalkPages(server: Server, cursor: Option<Cursor>, page: nat) returns (start: Option<Option<Cursor>>)
    ensures start == Walk(server, StartKey(cursor), page)
  {
    var key: Option<Cursor> := None;
    if StartKey(cursor).Some? {
      key := cursor;
    }
    for k := 0 to page
      invariant Walk(server, StartKey(cursor), page) == Walk(server, key, page - k)
    {
      var response := server(key);
      if response.Failed? || StartKey(response.next).None? {
        return None;
      }
      key := response.next;
    }
    return Some(key);
  }

  /** The conversion loop; None when an item raises. */
  method Convert(items: seq<Item>) returns (records: Option<seq<Record>>)
    ensures records == if AllReadable(items) then Some(ToRecords(items)) else None
  {
    hide Readable, ToRecords;
    var result: seq<Record> := [];
    NoRecords();
    for i := 0 to |items|
      invariant AllReadable(items[..i])
      invariant result == ToRecords(items[..i])
    {
      if !Readable(items[i]) {
        assert items[i] in items;
        return None;
      }
      RecordsAppend(items[..i], [items[i]]);
      OneRecord(items[i]);
      assert items[..i + 1] == items[..i] + [items[i]];
      result := result + [Record(ServiceOf(items[i]), items[i])];
    }
    assert items[..|items|] == items;
    return Some(result);
  }

  lemma NoRecords()
    ensures ToRecords([]) == []
  {
  }

  lemma OneRecord(item: Item)
    ensures ToRecords([item]) == [Record(ServiceOf(item), item)]
  {
    assert [item][1..] == [];
  }

  /** query_audit_logs. */
  method QueryAuditLogs(server: Server, service: Option<string>, limit: nat, cursor: Option<Cursor>, page: nat)
      returns (records: seq<Record>, next: Option<Cursor>)
    ensures (records, next) == AuditLogs(server, service, limit, cursor, page)
  {
    hide Matching, AllReadable, ToRecords, StartKey, Walk;
    var start := WalkPages(server, cursor, page);
    if start.None? {
      return [], None;
    }
    var response := server(start.value);
    if response.Failed? {
      return [], None;
    }
    var converted := Convert(First(Matching(response.items, service), limit));
    if converted.None? {
      return [], None;
    }
    return converted.value, response.next;
  }

  datatype Reply = BadRequest | Reply(records: seq<Record>, nextCursor: Option<string>)

  /** The route: has_more says that there is a next cursor. */
  function ListAudits(server: Server, service: Option<string>, limit: nat, cursor: Option<string>, page: nat): Reply {
    match DecodeCursor(cursor)
    case Err(_) => BadRequest
    case Ok(key) =>
      var answer := AuditLogs(server, service, limit, key, page);
      Reply(answer.0, EncodeCursor(answer.1))
  }

  /** A reader who asks for at most n pages, each with the cursor of the one before. */
  function Follow(server: Server, service: Option<string>, limit: nat, cursor: Option<string>, n: nat): seq<Record>
    decreases n
  {
    if n == 0 then []
    else
      var reply := ListAudits(server, service, limit, cursor, 0);
      if reply.BadRequest? then []
      else if reply.nextCursor.None? then reply.records
      else reply.records + Follow(server, service, limit, reply.nextCursor, n - 1)
  }

  // ---- Sort keys ----

  /** The newest first, no time twice. */
  predicate Descending(items: seq<Item>) {
    forall i, j :: 0 <= i < j < |items| ==> Less(items[j].time, items[i].time)
  }

  // ---- What the table promises ----

  function Key(tenant: string, time: string): Cursor { [("tenant_id", tenant), ("service_time", time)] }

  /** The items behind a sort key, in a descending scan. */
  function Behind(items: seq<Item>, time: string): seq<Item> {
    if |items| == 0 then []
    else (if Less(items[0].time, time) then [items[0]] else []) + Behind(items[1..], time)
  }

  /** A failure, or a non-empty part of what is left with the key of its last item, or all that is left. */
  predicate HonestResponse(r: Response, left: seq<Item>, tenant: string, limit: nat) {
    r.Page? ==>
      && |r.items| <= limit && r.items <= left
      && if r.next.None? then r.items == left
         else |r.items| > 0 && r.next == Some(Key(tenant, r.items[|r.items| - 1].time))
  }

  ghost predicate Honest(server: Server, items: seq<Item>, tenant: string, limit: nat) {
    && HonestResponse(server(None), items, tenant, limit)
    && forall time: string :: HonestResponse(server(Some(Key(tenant, time))), Behind(items, time), tenant, limit)
  }

  ghost predicate NeverFails(server: Server) {
    forall start :: server(start).Page?
  }

  /** A place in the scan: its beginning, or behind a key of the tenant. */
  datatype Place = Beginning | BehindKey(time: string)

  function StartOf(place: Place, tenant: string): Option<Cursor> {
    match place
    case Beginning => None
    case BehindKey(time) => Some(Key(tenant, time))
  }

  function Left(items: seq<Item>, place: Place): seq<Item> {
    match place
    case Beginning => items
    case BehindKey(time) => Behind(items, time)
  }

  // ---- Pieces of a page ----

  lemma {:induction false} RecordsAppend(a: seq<Item>, b: seq<Item>)
    ensures ToRecords(a + b) == ToRecords(a) + ToRecords(b)
  {
    if |a| == 0 {
      assert a + b == b;
    } else {
      assert (a + b)[1..] == a[1..] + b;
      RecordsAppend(a[1..], b);
    }
  }

  lemma {:induction false} MatchingAppends(a: seq<Item>, b: seq<Item>, service: Option<string>)
    ensures Matching(a + b, service) == Matching(a, service) + Matching(b, service)
  {
    hide Given, ServiceOf;
    if |a| == 0 {
      assert a + b == b;
    } else {
      assert (a + b)[0] == a[0] && (a + b)[1..] == a[1..] + b;
      MatchingAppends(a[1..], b, service);
      var head := if !Given(service) || ServiceOf(a[0]) == service then [a[0]] else [];
      assert Matching(a + b, service) == head + (Matching(a[1..], service) + Matching(b, service));
      assert Matching(a, service) == head + Matching(a[1..], service);
    }
  }

  lemma {:induction false} MatchingIsShorter(items: seq<Item>, service: Option<string>)
    ensures |Matching(items, service)| <= |items|
  {
    if |items| > 0 {
      MatchingIsShorter(items[1..], service);
    }
  }

  lemma {:induction false} RecordsKeepLength(items: seq<Item>)
    ensures |ToRecords(items)| == |items|
  {
    if |items| > 0 {
      RecordsKeepLength(items[1..]);
    }
  }

  /** Only later items are behind an item's key. */
  lemma {:induction false} BehindAll(items: seq<Item>, time: string)
    requires forall i :: i in items ==> Less(i.time, time)
    ensures Behind(items, time) == items
  {
    if |items| > 0 {
      assert forall i :: i in items[1..] ==> i in items;
      BehindAll(items[1..], time);
      assert items == [items[0]] + items[1..];
    }
  }

  lemma TailDescends(items: seq<Item>)
    requires Descending(items) && |items| > 0
    ensures Descending(items[1..])
  {
    hide Less;
    assert forall j :: 0 <= j < |items| - 1 ==> items[1..][j] == items[j + 1];
  }

  lemma {:induction false} BehindItem(items: seq<Item>, k: nat)
    requires Descending(items) && k < |items|
    ensures Behind(items, items[k].time) == items[k + 1..]
  {
    var time := items[k].time;
    hide Less;
    LessIsAsymmetric(items[0].time, time);
    if k == 0 {
      assert forall i :: i in items[1..] ==> Less(i.time, time);
      BehindAll(items[1..], time);
    } else {
      assert Less(time, items[0].time);
      TailDescends(items);
      hide Descending;
      BehindItem(items[1..], k - 1);
      assert items[1..][k - 1 + 1..] == items[k + 1..];
    }
  }

  /** What is left behind any key is a tail of the scan. */
  lemma {:induction false} BehindIsTail(items: seq<Item>, time: string) returns (k: nat)
    requires Descending(items)
    ensures k <= |items| && Behind(items, time) == items[k..]
  {
    hide Less;
    if |items| == 0 {
      k := 0;
    } else if Less(items[0].time, time) {
      forall i | i in items ensures Less(i.time, time) {
        if i != items[0] {
          LessIsTransitive(i.time, items[0].time, time);
        }
      }
      BehindAll(items, time);
      k := 0;
      assert items[0..] == items;
    } else {
      TailDescends(items);
      k := BehindIsTail(items[1..], time);
      assert items[1..][k..] == items[k + 1..];
      k := k + 1;
    }
  }

  /** After a page, what is left is what the page left. */
  lemma NextPlace(items: seq<Item>, place: Place, shown: seq<Item>)
    requires Descending(items) && |shown| > 0 && shown <= Left(items, place)
    ensures Left(items, BehindKey(shown[|shown| - 1].time)) == Left(items, place)[|shown|..]
  {
    hide Less, Descending, Behind;
    var k := 0;
    if place.BehindKey? {
      k := BehindIsTail(items, place.time);
    } else {
      assert items[0..] == items;
    }
    var left := items[k..];
    assert left[|shown| - 1] == items[k + |shown| - 1];
    BehindItem(items, k + |shown| - 1);
    assert left[|shown|..] == items[k + |shown|..];
  }

  // ---- One page through the route ----

  lemma StartIsDecoded(place: Place, tenant: string)
    ensures DecodeCursor(EncodeCursor(StartOf(place, tenant))) == Ok(StartOf(place, tenant))
    ensures StartKey(StartOf(place, tenant)) == StartOf(place, tenant)
  {
    hide DecodeCursor, EncodeCursor;
    DecodeEncodeCursor(StartOf(place, tenant));
  }

  /** The reply at a place is the page there, whole, or nothing. */
  lemma ReplyAt(server: Server, items: seq<Item>, tenant: string, service: Option<string>, limit: nat, place: Place)
    requires Honest(server, items, tenant, limit)
    ensures var r := server(StartOf(place, tenant));
            ListAudits(server, service, limit, EncodeCursor(StartOf(place, tenant)), 0)
            == (if r.Failed? || !AllReadable(Matching(r.items, service)) then Reply([], None)
                else Reply(ToRecords(Matching(r.items, service)), EncodeCursor(r.next)))
  {
    hide DecodeCursor, Matching, ToRecords, AllReadable, Behind;
    StartIsDecoded(place, tenant);
    var r := server(StartOf(place, tenant));
    if r.Page? {
      assert HonestResponse(r, Left(items, place), tenant, limit);
      MatchingIsShorter(r.items, service);
    }
    assert EncodeCursor(None) == None;
    hide EncodeCursor;
  }

  lemma NextCursorIsGiven(tenant: string, time: string)
    ensures EncodeCursor(Some(Key(tenant, time))).Some?
  {
    hide JsonText.Dump, Base64Url.StripPadding;
  }

  // ---- Whole readings ----

  /** The visible records of a stretch of the scan. */
  function Visible(items: seq<Item>, service: Option<string>): seq<Record> { ToRecords(Matching(items, service)) }

  lemma VisibleAppends(a: seq<Item>, b: seq<Item>, service: Option<string>)
    ensures Visible(a + b, service) == Visible(a, service) + Visible(b, service)
    ensures AllReadable(Matching(a + b, service)) <==>
              AllReadable(Matching(a, service)) && AllReadable(Matching(b, service))
  {
    MatchingAppends(a, b, service);
    RecordsAppend(Matching(a, service), Matching(b, service));
    hide Matching, ToRecords;
  }

  /** The place behind a page that has a next. */
  function NextOf(r: Response): Place
    requires r.Page? && |r.items| > 0
  {
    BehindKey(r.items[|r.items| - 1].time)
  }

  lemma PageSplitsWhatIsLeft(server: Server, items: seq<Item>, tenant: string, service: Option<string>, limit: nat,
                             place: Place)
    requires Honest(server, items, tenant, limit) && Descending(items)
    requires server(StartOf(place, tenant)).Page?
    ensures var r := server(StartOf(place, tenant)); var left := Left(items, place);
            && |r.items| <= |left|
            && Visible(left, service) == Visible(r.items, service) + Visible(left[|r.items|..], service)
            && (AllReadable(Matching(left, service)) <==>
                  AllReadable(Matching(r.items, service)) && AllReadable(Matching(left[|r.items|..], service)))
            && (r.next.None? ==> left[|r.items|..] == [])
            && (r.next.Some? ==>
                  |r.items| > 0 && r.next == Some(Key(tenant, NextOf(r).time)) && Left(items, NextOf(r)) == left[|r.items|..])
  {
    var r, left := server(StartOf(place, tenant)), Left(items, place);
    assert HonestResponse(r, left, tenant, limit);
    hide Honest, Visible, AllReadable, Matching, Behind, Left, Descending;
    assert left == r.items + left[|r.items|..];
    VisibleAppends(r.items, left[|r.items|..], service);
    if r.next.Some? {
      NextPlace(items, place, r.items);
    }
  }

  /** Whatever fails, a reader sees the visible records in order from the start on, none twice and none skipped. */
  lemma {:induction false} FollowIsPrefix(server: Server, items: seq<Item>, tenant: string, service: Option<string>,
                                          limit: nat, place: Place, n: nat)
    requires Honest(server, items, tenant, limit) && Descending(items)
    ensures Follow(server, service, limit, EncodeCursor(StartOf(place, tenant)), n) <= Visible(Left(items, place), service)
    decreases n
  {
    hide Honest, Descending, EncodeCursor, ListAudits, AllReadable, Matching, Left, StartOf, ToRecords;
    if n > 0 {
      ReplyAt(server, items, tenant, service, limit, place);
      var r := server(StartOf(place, tenant));
      if r.Page? {
        PageSplitsWhatIsLeft(server, items, tenant, service, limit, place);
        if r.next.Some? {
          FollowIsPrefix(server, items, tenant, service, limit, NextOf(r), n - 1);
          PlaceOfKey(tenant, NextOf(r).time);
        } else {
          NoCursor();
        }
      }
    }
  }

  lemma PlaceOfKey(tenant: string, time: string)
    ensures StartOf(BehindKey(time), tenant) == Some(Key(tenant, time))
    ensures EncodeCursor(Some(Key(tenant, time))).Some?
  {
    NextCursorIsGiven(tenant, time);
  }

  lemma NoCursor()
    ensures EncodeCursor(None) == None
  {
  }

  /**
   Over a table that answers every query, following the cursors shows every visible record exactly
   when each of them is readable; it takes at most one request more than there are items.
   */
  lemma {:induction false} FollowSeesAll(server: Server, items: seq<Item>, tenant: string, service: Option<string>,
                                         limit: nat, place: Place, n: nat)
    requires Honest(server, items, tenant, limit) && Descending(items) && NeverFails(server)
    requires n > |Left(items, place)|
    ensures Follow(server, service, limit, EncodeCursor(StartOf(place, tenant)), n) == Visible(Left(items, place), service)
       <==> AllReadable(Matching(Left(items, place), service))
    decreases n
  {
    hide Honest, Descending, EncodeCursor, ListAudits, AllReadable, Matching, Left, StartOf, ToRecords;
    ReplyAt(server, items, tenant, service, limit, place);
    PageSplitsWhatIsLeft(server, items, tenant, service, limit, place);
    var r, left := server(StartOf(place, tenant)), Left(items, place);
    if !AllReadable(Matching(r.items, service)) {
      UnreadableIsVisible(left, service);
      NoCursor();
    } else if r.next.Some? {
      PlaceOfKey(tenant, NextOf(r).time);
      FollowSeesAll(server, items, tenant, service, limit, NextOf(r), n - 1);
      assert Follow(server, service, limit, EncodeCursor(StartOf(place, tenant)), n)
          == Visible(r.items, service) + Follow(server, service, limit, EncodeCursor(r.next), n - 1);
      SamePrefix(Visible(r.items, service), Follow(server, service, limit, EncodeCursor(r.next), n - 1),
                 Visible(left[|r.items|..], service));
    } else {
      NoCursor();
      NothingIsVisible(service);
    }
  }

  lemma SamePrefix(a: seq<Record>, b: seq<Record>, c: seq<Record>)
    ensures a + b == a + c <==> b == c
  {
    if a + b == a + c {
      assert (a + b)[|a|..] == b && (a + c)[|a|..] == c;
    }
  }

  lemma UnreadableIsVisible(items: seq<Item>, service: Option<string>)
    ensures !AllReadable(Matching(items, service)) ==> Visible(items, service) != []
  {
  }

  lemma NothingIsVisible(service: Option<string>)
    ensures Visible([], service) == [] && AllReadable(Matching([], service))
  {
  }

  // ---- What a whole reading holds ----

  /** The item goes by the name: its service name is that, or it has none and its service id is that. */
  predicate IsNamed(item: Item, name: string) {
    item.serviceName == Some(name) || (item.serviceName in {None, Some("")} && item.serviceId == Some(name))
  }

  /** No service, or the empty one, asks for every item. */
  predicate Matches(item: Item, service: Option<string>) {
    service.None? || service.value == "" || IsNamed(item, service.value)
  }

  /** Records carry the name that their item goes by. */
  lemma ServiceMeaning(item: Item, name: string)
    requires name != ""
    ensures RecordOf(item).service == Some(name) <==> IsNamed(item, name)
  {
  }

  lemma MatchesMeaning(item: Item, service: Option<string>)
    ensures Matches(item, service) <==> !Given(service) || ServiceOf(item) == service
  {
    if Given(service) {
      ServiceMeaning(item, service.value);
    }
  }

  function RecordOf(item: Item): Record { Record(ServiceOf(item), item) }

  /** The visible records are those of the matching items, each once, in the order of the scan. */
  lemma {:induction false} VisibleMeaning(items: seq<Item>, service: Option<string>)
    requires Descending(items)
    ensures forall r :: r in Visible(items, service) ==>
              r.item in items && Matches(r.item, service) && r == RecordOf(r.item)
    ensures forall i :: i in items && Matches(i, service) ==> RecordOf(i) in Visible(items, service)
    ensures forall a, b :: 0 <= a < b < |Visible(items, service)| ==>
              Less(Visible(items, service)[b].item.time, Visible(items, service)[a].item.time)
  {
    if |items| > 0 {
      var rest := Visible(items[1..], service);
      VisibleMeaning(items[1..], service);
      assert items == [items[0]] + items[1..];
      VisibleAppends([items[0]], items[1..], service);
      OneVisible(items[0], service);
      hide Visible, Matches, Less;
    }
  }

  lemma OneVisible(item: Item, service: Option<string>)
    ensures Visible([item], service) == if Matches(item, service) then [RecordOf(item)] else []
  {
    assert [item][1..] == [];
    MatchesMeaning(item, service);
    hide Matches;
    assert Matching([item], service) == (if Matches(item, service) then [item] else []);
    assert ToRecords([item]) == [RecordOf(item)];
  }

  /**
   A reader who starts without a cursor and follows every cursor sees exactly the tenant's records of
   the service, each once and the newest first, if all of them are readable.
   */
  lemma ReadingIsComplete(server: Server, items: seq<Item>, tenant: string, service: Option<string>, limit: nat)
    requires Honest(server, items, tenant, limit) && Descending(items) && NeverFails(server)
    requires forall i :: i in items && Matches(i, service) ==> Readable(i)
    ensures var seen := Follow(server, service, limit, None, |items| + 1);
            && (forall r :: r in seen ==> r.item in items && Matches(r.item, service) && r == RecordOf(r.item))
            && (forall i :: i in items && Matches(i, service) ==> RecordOf(i) in seen)
            && (forall a, b :: 0 <= a < b < |seen| ==> Less(seen[b].item.time, seen[a].item.time))
  {
    MatchingMeaning(items, service);
    NoCursor();
    FollowSeesAll(server, items, tenant, service, limit, Beginning, |items| + 1);
    hide Honest, Descending, Follow, Visible, Matches, Less;
    VisibleMeaning(items, service);
  }

  lemma {:induction false} MatchingMeaning(items: seq<Item>, service: Option<string>)
    ensures forall i :: i in Matching(items, service) <==> i in items && Matches(i, service)
  {
    if |items| > 0 {
      MatchingMeaning(items[1..], service);
      MatchesMeaning(items[0], service);
      hide Matches;
      assert items == [items[0]] + items[1..];
    }
  }

  // ---- Direct jumps ----

  /** The cursor after so many replies, None where a reply has none. */
  function CursorAfter(server: Server, service: Option<string>, limit: nat, cursor: Option<string>, k: nat)
      : Option<Option<string>>
    decreases k
  {
    if k == 0 then Some(cursor)
    else
      var reply := ListAudits(server, service, limit, cursor, 0);
      if reply.BadRequest? || reply.nextCursor.None? then None
      else CursorAfter(server, service, limit, reply.nextCursor, k - 1)
  }

  /** The page that following k cursors leads to. */
  function Following(server: Server, service: Option<string>, limit: nat, cursor: Option<string>, k: nat): Reply {
    match CursorAfter(server, service, limit, cursor, k)
    case None => Reply([], None)
    case Some(c) => ListAudits(server, service, limit, c, 0)
  }

  /** Every page that a walk of k steps passes can be shown. */
  predicate WalkIsReadable(server: Server, service: Option<string>, start: Option<Cursor>, k: nat)
    decreases k
  {
    k > 0 ==>
      match server(start)
      case Failed => true
      case Page(items, next) =>
        AllReadable(Matching(items, service)) && (next.Some? ==> WalkIsReadable(server, service, next, k - 1))
  }

  /** A jump goes through the page as the walk does. */
  lemma JumpStep(server: Server, service: Option<string>, limit: nat, tenant: string, place: Place, k: nat)
    requires k > 0
    ensures var r := server(StartOf(place, tenant));
            && (r.Failed? || StartKey(r.next).None? ==>
                  ListAudits(server, service, limit, EncodeCursor(StartOf(place, tenant)), k) == Reply([], None))
            && (forall behind: Place :: r.Page? && r.next == StartOf(behind, tenant) && behind.BehindKey? ==>
                  (ListAudits(server, service, limit, EncodeCursor(StartOf(place, tenant)), k)
                   == ListAudits(server, service, limit, EncodeCursor(StartOf(behind, tenant)), k - 1)))
  {
    hide DecodeCursor, EncodeCursor, AnswerAt;
    StartIsDecoded(place, tenant);
    NoCursor();
    forall behind: Place ensures DecodeCursor(EncodeCursor(StartOf(behind, tenant))) == Ok(StartOf(behind, tenant)) {
      StartIsDecoded(behind, tenant);
    }
  }

  /**
   Whether page k is not there to be shown: a query on the way or the last one fails, the scan ends on
   the way, or page k holds an unreadable item or has neither visible records nor a next page.
   */
  predicate NothingThere(server: Server, service: Option<string>, start: Option<Cursor>, k: nat)
    decreases k
  {
    match server(start)
    case Failed => true
    case Page(items, next) =>
      if k > 0 then next.None? || NothingThere(server, service, next, k - 1)
      else !AllReadable(Matching(items, service)) || (Matching(items, service) == [] && next.None?)
  }

  /** A jump shows nothing exactly when there is nothing to be shown. */
  lemma {:induction false} EmptyJumpExactlyWhen(server: Server, items: seq<Item>, tenant: string,
                                                service: Option<string>, limit: nat, place: Place, k: nat)
    requires Honest(server, items, tenant, limit) && Descending(items)
    ensures ListAudits(server, service, limit, EncodeCursor(StartOf(place, tenant)), k) == Reply([], None)
       <==> NothingThere(server, service, StartOf(place, tenant), k)
    decreases k
  {
    hide Honest, Descending, EncodeCursor, ListAudits, AllReadable, Matching, ToRecords, Left;
    var r := server(StartOf(place, tenant));
    ReplyAt(server, items, tenant, service, limit, place);
    NoCursor();
    if r.Page? {
      PageSplitsWhatIsLeft(server, items, tenant, service, limit, place);
      RecordsKeepLength(Matching(r.items, service));
      if r.next.Some? {
        PlaceOfKey(tenant, NextOf(r).time);
      }
    }
    if k > 0 {
      JumpStep(server, service, limit, tenant, place, k);
      if r.Page? && r.next.Some? {
        EmptyJumpExactlyWhen(server, items, tenant, service, limit, NextOf(r), k - 1);
        hide StartOf;
      }
    }
  }

  /** Past an unreadable page there is no following. */
  lemma {:induction false} FollowingMeaning(server: Server, items: seq<Item>, tenant: string,
                                            service: Option<string>, limit: nat, place: Place, k: nat)
    requires Honest(server, items, tenant, limit) && Descending(items)
    ensures var cursor := EncodeCursor(StartOf(place, tenant));
            Following(server, service, limit, cursor, k)
            == if WalkIsReadable(server, service, StartOf(place, tenant), k)
               then ListAudits(server, service, limit, cursor, k) else Reply([], None)
    decreases k
  {
    hide Honest, Descending, EncodeCursor, ListAudits, AllReadable, Matching, ToRecords, Left;
    if k > 0 {
      var r := server(StartOf(place, tenant));
      ReplyAt(server, items, tenant, service, limit, place);
      JumpStep(server, service, limit, tenant, place, k);
      NoCursor();
      if r.Page? && r.next.Some? {
        PageSplitsWhatIsLeft(server, items, tenant, service, limit, place);
        PlaceOfKey(tenant, NextOf(r).time);
        FollowingMeaning(server, items, tenant, service, limit, NextOf(r), k - 1);
        hide StartOf;
      }
    }
  }

  /**
   A jump to page k shows what following k cursors shows exactly when every page passed on the way is
   readable, or page k is not there to be shown: an unreadable page ends the following but not the walk.
   */
  lemma JumpIsFollowingExactlyWhen(server: Server, items: seq<Item>, tenant: string,
                                   service: Option<string>, limit: nat, place: Place, k: nat)
    requires Honest(server, items, tenant, limit) && Descending(items)
    ensures var start := StartOf(place, tenant);
            ListAudits(server, service, limit, EncodeCursor(start), k)
            == Following(server, service, limit, EncodeCursor(start), k)
            <==> WalkIsReadable(server, service, start, k) || NothingThere(server, service, start, k)
  {
    hide *;
    FollowingMeaning(server, items, tenant, service, limit, place, k);
    EmptyJumpExactlyWhen(server, items, tenant, service, limit, place, k);
  }

  // ---- Readable numbers ----

  /** The number of digits in front of the decimal point. */
  function WholeDigits(x: real): nat { |Decimal(if x < 0.0 then (-x).Floor else x.Floor)| }

  lemma WholeDigitsMeaning(x: real, k: nat)
    requires k > 0
    ensures WholeDigits(x) <= k <==> -(Power(10, k) as real) < x < Power(10, k) as real
  {
    DecimalLength(if x < 0.0 then (-x).Floor else x.Floor, k);
    hide Power, Decimal;
    var p := Power(10, k);
    if x < 0.0 {
      assert (-x).Floor < p <==> -x < p as real;
    } else {
      assert x.Floor < p <==> x < p as real;
    }
  }

  /** An item is readable exactly when the whole part of each of its numbers has at most 28 digits. */
  lemma ReadableExactlyWhen(item: Item)
    ensures Readable(item) <==> forall x :: x in item.numbers ==> WholeDigits(x) <= 28
  {
    hide WholeDigits, Power;
    forall x | x in item.numbers
      ensures -(Power(10, 28) as real) < x < Power(10, 28) as real <==> WholeDigits(x) <= 28
    {
      WholeDigitsMeaning(x, 28);
    }
  }

  // ---- An unreadable page ----

  const OLD := Item("1", None, None, [0.5])

  /** An item whose severity is the Decimal 1E+50, which the table stores and the remainder refuses. */
  const NEW := Item("2", None, None, [Power(10, 50) as real])

  lemma OnlyOldIsReadable()
    ensures Readable(OLD) && !Readable(NEW)
  {
    PowerIsPositive(10, 28);
    PowerGrows(10, 28, 50);
    hide Power;
    assert Power(10, 50) as real in NEW.numbers;
  }

  /** A table of two items, read one at a time. */
  function TwoItems(start: Option<Cursor>): Response {
    match start
    case None => Page([NEW], Some(Key("t", "2")))
    case Some(c) =>
      if |c| == 2 && c[0] == ("tenant_id", "t") && c[1].0 == "service_time" then
        if Less("2", c[1].1) then Page([NEW], Some(Key("t", "2")))
        else if Less("1", c[1].1) then Page([OLD], None) else Page([], None)
      else Page([], None)
  }

  lemma TwoItemsAreHonest()
    ensures Honest(TwoItems, [NEW, OLD], "t", 1) && NeverFails(TwoItems) && Descending([NEW, OLD])
  {
    forall time: string
      ensures HonestResponse(TwoItems(Some(Key("t", time))), Behind([NEW, OLD], time), "t", 1)
    {
      assert [NEW, OLD][1..] == [OLD] && [OLD][1..] == [];
      assert Behind([OLD], time) == if Less("1", time) then [OLD] else [];
      if Less("2", time) {
        LessIsTransitive("1", "2", time);
      }
    }
  }

  /** An unreadable item hides every older record from a reader who follows, yet a jump finds them. */
  lemma UnreadablePageEndsTheReading()
    ensures Honest(TwoItems, [NEW, OLD], "t", 1) && NeverFails(TwoItems) && Descending([NEW, OLD])
    ensures forall n: nat :: Follow(TwoItems, None, 1, None, n) == []
    ensures ListAudits(TwoItems, None, 1, None, 1) == Reply([RecordOf(OLD)], None)
  {
    TwoItemsAreHonest();
    OnlyOldIsReadable();
    hide EncodeCursor, Readable;
    NoCursor();
    assert Matching([NEW], None) == [NEW] by { assert [NEW][1..] == []; }
    assert NEW in [NEW];
    assert ListAudits(TwoItems, None, 1, None, 0) == Reply([], None);
    assert Less("1", "2") && !Less("2", "2");
    assert TwoItems(Some(Key("t", "2"))) == Page([OLD], None);
    assert Matching([OLD], None) == [OLD] by { assert [OLD][1..] == []; }
    assert ToRecords([OLD]) == [RecordOf(OLD)] by { assert [OLD][1..] == []; }
  }
}
