/**
  The message lists of the web client and its per-conversation watermark
  (frontend/src/contexts/ChatContext.tsx:68-86, 108-153, 223-246, 270-294, 373-389).

  A JavaScript `Map` from id to message is kept as its entries in insertion
  order; `Put` is `Map.set`.
 */
module ChatStore {
  import opened MessageLog
  import opened Sorting
  import opened MessageOrder

  /** The position of the entry with that id; the length of the list if there is none. */
  function Find(list: seq<ChatMessage>, id: string): (k: nat)
    ensures k <= |list| && (k < |list| ==> list[k].id == id)
    ensures forall i :: 0 <= i < k ==> list[i].id != id
  {
    if |list| == 0 || list[0].id == id then 0 else 1 + Find(list[1..], id)
  }

  function Put(entries: seq<ChatMessage>, m: ChatMessage): seq<ChatMessage> {
    var k := Find(entries, m.id);
    if k < |entries| then entries[k := m] else entries + [m]
  }

  /**
    `{...previous, ...message, pending: false, failed: false}`. A message from
    the broker has no row-id key, so a known row id stays; its `seq` key is
    there even when undefined, so a known sequence number does not.
   */
  function Overlay(entries: seq<ChatMessage>, m: ChatMessage): ChatMessage {
    var k := Find(entries, m.id);
    Laid(if k < |entries| then entries[k].dbId else 0, m)
  }

  function Laid(knownDbId: nat, m: ChatMessage): ChatMessage {
    m.(dbId := if m.dbId == 0 then knownDbId else m.dbId, pending := false, failed := false)
  }

  function PutAll(ms: seq<ChatMessage>): seq<ChatMessage> {
    if |ms| == 0 then [] else Put(PutAll(ms[..|ms| - 1]), ms[|ms| - 1])
  }

  function OverlayAll(entries: seq<ChatMessage>, ms: seq<ChatMessage>): seq<ChatMessage> {
    if |ms| == 0 then entries
    else
      var so := OverlayAll(entries, ms[..|ms| - 1]);
      Put(so, Overlay(so, ms[|ms| - 1]))
  }

  /** What `mergeConversationMessages` returns. */
  function Merged(locale: (string, string) -> int, existing: seq<ChatMessage>,
                  incoming: seq<ChatMessage>): seq<ChatMessage> {
    SortBy(Before(locale), OverlayAll(PutAll(existing), incoming))
  }

  /** What a refresh or catch-up response makes of the list. */
  function Loaded(locale: (string, string) -> int, list: seq<ChatMessage>, page: seq<ChatMessage>): seq<ChatMessage> {
    Merged(locale, list, SortBy(Before(locale), PutAll(page)))
  }

  /** What `upsertMessage` makes of the list: a new message is added as it is, flags included. */
  function Upserted(locale: (string, string) -> int, list: seq<ChatMessage>, m: ChatMessage): seq<ChatMessage> {
    var k := Find(list, m.id);
    SortBy(Before(locale), if k < |list| then list[k := Overlay(list, m)] else list + [m])
  }

  function MarkedFailed(list: seq<ChatMessage>, id: string): (r: seq<ChatMessage>)
    ensures |r| == |list|
    ensures forall i :: 0 <= i < |list| ==>
              r[i] == if list[i].id == id then list[i].(pending := false, failed := true) else list[i]
  {
    seq(|list|, i requires 0 <= i < |list| =>
      if list[i].id == id then list[i].(pending := false, failed := true) else list[i])
  }

  /** The greatest sequence number among messages that have one, and `start`. */
  function Highest(ms: seq<ChatMessage>, start: int): int {
    if |ms| == 0 then start
    else
      var so, m := Highest(ms[..|ms| - 1], start), ms[|ms| - 1];
      if m.seqNo.Some? && m.seqNo.value > so then m.seqNo.value else so
  }

  /** What the client keeps of one conversation; no watermark is a watermark of 0. */
  datatype Kept = Kept(list: seq<ChatMessage>, lastSeq: int)

  /** A refresh response: the watermark becomes the page's top, even when it was higher before. */
  function Refreshed(locale: (string, string) -> int, known: Kept, page: seq<ChatMessage>): Kept {
    var top := Highest(SortBy(Before(locale), PutAll(page)), 0);
    Kept(Loaded(locale, known.list, page), if top > 0 then top else known.lastSeq)
  }

  /** A catch-up response: nothing if it is empty, else the watermark restarts from the cursor asked with. */
  function CaughtUp(locale: (string, string) -> int, known: Kept, afterSeq: int, page: seq<ChatMessage>): Kept {
    if page == [] then known
    else Kept(Loaded(locale, known.list, page), Highest(SortBy(Before(locale), PutAll(page)), afterSeq))
  }

  /** One message: the watermark moves only if it carries a larger sequence number. */
  function Received(locale: (string, string) -> int, known: Kept, m: ChatMessage): Kept {
    Kept(Upserted(locale, known.list, m),
         if m.seqNo.Some? && m.seqNo.value > known.lastSeq then m.seqNo.value else known.lastSeq)
  }

  // ----- What the lists hold.

  ghost function Ids(list: seq<ChatMessage>): set<string> {
    set m | m in list :: m.id
  }

  /** The message with that id, if any, is not pending. */
  ghost predicate Settled(list: seq<ChatMessage>, id: string) {
    forall m :: m in list && m.id == id ==> !m.pending
  }

  lemma PutContents(entries: seq<ChatMessage>, m: ChatMessage)
    requires UniqueIds(entries)
    ensures UniqueIds(Put(entries, m))
    ensures forall x :: x in Put(entries, m) <==> x == m || (x in entries && x.id != m.id)
  {
    var k, r := Find(entries, m.id), Put(entries, m);
    forall x ensures x in r <==> x == m || (x in entries && x.id != m.id) {
      if x in entries && x.id != m.id {
        var i :| 0 <= i < |entries| && entries[i] == x;
        assert r[i] == x;
      }
      if k < |entries| {
        assert r[k] == m;
      } else {
        assert r[|entries|] == m;
      }
      if x in r && x != m {
        var i :| 0 <= i < |r| && r[i] == x;
        assert i != k && entries[i] == x;
      }
    }
  }

  lemma IdsAppend(ms: seq<ChatMessage>, m: ChatMessage)
    ensures Ids(ms + [m]) == Ids(ms) + {m.id}
    ensures forall x :: x in ms + [m] <==> x in ms || x == m
  {
  }

  lemma {:induction false} PutAllContents(ms: seq<ChatMessage>)
    ensures UniqueIds(PutAll(ms))
    ensures forall x :: x in PutAll(ms) ==> x in ms
    ensures Ids(PutAll(ms)) == Ids(ms)
  {
    if |ms| > 0 {
      var init, m := ms[..|ms| - 1], ms[|ms| - 1];
      PutAllContents(init);
      PutContents(PutAll(init), m);
      IdsAppend(init, m);
      assert ms == init + [m];
      IdsOfPut(PutAll(init), m, PutAll(ms));
    }
  }

  lemma IdsOfPut(entries: seq<ChatMessage>, m: ChatMessage, r: seq<ChatMessage>)
    requires forall x :: x in r <==> x == m || (x in entries && x.id != m.id)
    ensures Ids(r) == Ids(entries) + {m.id}
  {
  }

  /** A listing without repeated ids goes through a `Map` unchanged. */
  lemma {:induction false} PutAllOfUnique(ms: seq<ChatMessage>)
    requires UniqueIds(ms)
    ensures PutAll(ms) == ms
  {
    if |ms| > 0 {
      var init, m := ms[..|ms| - 1], ms[|ms| - 1];
      PutAllOfUnique(init);
      assert ms == init + [m];
    }
  }

  /** A property of messages that laying one message over another of the same id keeps. */
  ghost predicate Stable(ok: ChatMessage -> bool) {
    && (forall m {:trigger Laid(0, m)} :: ok(m) ==> ok(Laid(0, m)))
    && (forall m, e {:trigger Laid(e.dbId, m)} :: ok(m) && ok(e) && m.id == e.id ==> ok(Laid(e.dbId, m)))
  }

  ghost predicate AllOf(ok: ChatMessage -> bool, list: seq<ChatMessage>) {
    forall x :: x in list ==> ok(x)
  }

  lemma OverlayKeeps(ok: ChatMessage -> bool, entries: seq<ChatMessage>, m: ChatMessage)
    requires Stable(ok) && AllOf(ok, entries) && ok(m)
    ensures ok(Overlay(entries, m))
  {
  }

  lemma OverlayPut(ok: ChatMessage -> bool, so: seq<ChatMessage>, m: ChatMessage)
    requires UniqueIds(so) && Stable(ok) && AllOf(ok, so) && ok(m)
    ensures var r := Put(so, Overlay(so, m));
            && UniqueIds(r) && Ids(r) == Ids(so) + {m.id} && AllOf(ok, r)
            && Settled(r, m.id) && forall id :: Settled(so, id) ==> Settled(r, id)
  {
    PutContents(so, Overlay(so, m));
    IdsOfPut(so, Overlay(so, m), Put(so, Overlay(so, m)));
    OverlayKeeps(ok, so, m);
  }

  lemma {:induction false} OverlayAllContents(ok: ChatMessage -> bool, entries: seq<ChatMessage>, ms: seq<ChatMessage>)
    requires UniqueIds(entries) && Stable(ok) && AllOf(ok, entries) && AllOf(ok, ms)
    ensures UniqueIds(OverlayAll(entries, ms)) && AllOf(ok, OverlayAll(entries, ms))
    ensures Ids(OverlayAll(entries, ms)) == Ids(entries) + Ids(ms)
    ensures forall id :: Settled(entries, id) || id in Ids(ms) ==> Settled(OverlayAll(entries, ms), id)
  {
    if |ms| > 0 {
      var init, m := ms[..|ms| - 1], ms[|ms| - 1];
      IdsAppend(init, m);
      assert ms == init + [m];
      OverlayAllContents(ok, entries, init);
      OverlayPut(ok, OverlayAll(entries, init), m);
    }
  }

  /** Sorting keeps what a list holds. */
  lemma SortContents(locale: (string, string) -> int, list: seq<ChatMessage>)
    ensures var r := SortBy(Before(locale), list);
            (UniqueIds(list) ==> UniqueIds(r)) && Ids(r) == Ids(list) && forall x :: x in r <==> x in list
  {
    SortKeeps(Before(locale), list);
    SortSameElements(Before(locale), list);
    if UniqueIds(list) {
      UniqueIdsArePermuted(list, SortBy(Before(locale), list));
    }
  }

  lemma CountOnce(list: seq<ChatMessage>, k: nat)
    requires UniqueIds(list) && k < |list|
    ensures multiset(list)[list[k]] == 1
  {
    var x := list[k];
    assert list == list[..k] + [x] + list[k + 1..];
    assert x !in list[..k] && x !in list[k + 1..];
    assert multiset(list[..k])[x] == 0 && multiset(list[k + 1..])[x] == 0;
  }

  lemma CountTwice(r: seq<ChatMessage>, i: nat, j: nat)
    requires i < j < |r| && r[i] == r[j]
    ensures multiset(r)[r[i]] >= 2
  {
    assert r == r[..j] + [r[j]] + r[j + 1..];
    assert r[..j][i] == r[i];
    assert r[i] in multiset(r[..j]);
  }

  lemma UniqueIdsArePermuted(list: seq<ChatMessage>, r: seq<ChatMessage>)
    requires UniqueIds(list) && multiset(list) == multiset(r)
    ensures UniqueIds(r)
  {
    forall i, j | 0 <= i < j < |r| ensures r[i].id != r[j].id {
      assert r[i] in multiset(list) && r[j] in multiset(list);
      if r[i].id == r[j].id {
        SameIdSame(list, r[i], r[j]);
        var k :| 0 <= k < |list| && list[k] == r[i];
        CountOnce(list, k);
        CountTwice(r, i, j);
      }
    }
  }

  /** A response adds its messages and settles them; nobody else's entry goes or comes back pending. */
  lemma LoadedContents(locale: (string, string) -> int, ok: ChatMessage -> bool, list: seq<ChatMessage>,
                       page: seq<ChatMessage>)
    requires UniqueIds(list) && Stable(ok) && AllOf(ok, list) && AllOf(ok, page)
    ensures var r := Loaded(locale, list, page);
            && UniqueIds(r) && AllOf(ok, r)
            && Ids(r) == Ids(list) + Ids(page)
            && forall id :: Settled(list, id) || id in Ids(page) ==> Settled(r, id)
  {
    var incoming := SortBy(Before(locale), PutAll(page));
    PutAllContents(page);
    SortContents(locale, PutAll(page));
    PutAllOfUnique(list);
    OverlayAllContents(ok, list, incoming);
    SortContents(locale, OverlayAll(list, incoming));
  }

  lemma LoadedPageLength(locale: (string, string) -> int, page: seq<ChatMessage>)
    ensures |SortBy(Before(locale), PutAll(page))| == 0 <==> page == []
  {
  }

  lemma UpsertedContents(locale: (string, string) -> int, ok: ChatMessage -> bool, list: seq<ChatMessage>,
                         m: ChatMessage)
    requires UniqueIds(list) && Stable(ok) && AllOf(ok, list) && ok(m)
    ensures var r := Upserted(locale, list, m);
            && UniqueIds(r) && AllOf(ok, r)
            && Ids(r) == Ids(list) + {m.id}
            && (forall id :: id in Ids(list) && Settled(list, id) ==> Settled(r, id))
            && (m.id in Ids(list) || !m.pending ==> Settled(r, m.id))
  {
    var k := Find(list, m.id);
    var o := if k < |list| then Overlay(list, m) else m;
    OverlayKeeps(ok, list, m);
    PutContents(list, o);
    IdsOfPut(list, o, Put(list, o));
    SortContents(locale, Put(list, o));
  }

  // ----- Whose fields survive.

  /** The last message of its id. */
  ghost predicate LastOf(ms: seq<ChatMessage>, x: ChatMessage) {
    exists k :: 0 <= k < |ms| && ms[k] == x && forall j :: k < j < |ms| ==> ms[j].id != x.id
  }

  /** The row id the last message of that id has; 0 if there is none. */
  function RowIdIn(ms: seq<ChatMessage>, id: string): nat {
    if |ms| == 0 then 0
    else if ms[|ms| - 1].id == id then ms[|ms| - 1].dbId
    else RowIdIn(ms[..|ms| - 1], id)
  }

  /** The last row id that messages of that id bring, or else the known one. */
  function RowIdAfter(known: nat, ms: seq<ChatMessage>, id: string): nat {
    if |ms| == 0 then known
    else if ms[|ms| - 1].id == id && ms[|ms| - 1].dbId != 0 then ms[|ms| - 1].dbId
    else RowIdAfter(known, ms[..|ms| - 1], id)
  }

  /** Everything as in `m`, the flags cleared; the known row id where `m` has none. */
  predicate Carries(x: ChatMessage, m: ChatMessage, knownDbId: nat) {
    && x.id == m.id && x.topic == m.topic && x.createdAt == m.createdAt && x.timestamp == m.timestamp
    && x.seqNo == m.seqNo && !x.pending && !x.failed
    && x.dbId == if m.dbId == 0 then knownDbId else m.dbId
  }

  lemma LastOfAppend(ms: seq<ChatMessage>, m: ChatMessage, x: ChatMessage)
    ensures LastOf(ms + [m], x) <==> x == m || (LastOf(ms, x) && x.id != m.id)
  {
    var all := ms + [m];
    assert all[|ms|] == m;
    if LastOf(ms, x) && x.id != m.id {
      var k :| 0 <= k < |ms| && ms[k] == x && forall j :: k < j < |ms| ==> ms[j].id != x.id;
      assert all[k] == x;
    }
    if LastOf(all, x) && x != m {
      var k :| 0 <= k < |all| && all[k] == x && forall j :: k < j < |all| ==> all[j].id != x.id;
      assert forall j :: k < j < |ms| ==> all[j] == ms[j];
      assert ms[k] == x;
    }
  }

  lemma LastOfUnique(ms: seq<ChatMessage>, x: ChatMessage)
    requires UniqueIds(ms)
    ensures LastOf(ms, x) <==> x in ms
  {
    if x in ms {
      var k :| 0 <= k < |ms| && ms[k] == x;
    }
  }

  /** A map keyed by id keeps the last message of each. */
  lemma {:induction false} PutAllHolds(ms: seq<ChatMessage>, x: ChatMessage)
    ensures x in PutAll(ms) <==> LastOf(ms, x)
  {
    if |ms| > 0 {
      var init, m := ms[..|ms| - 1], ms[|ms| - 1];
      PutAllHolds(init, x);
      PutAllContents(init);
      PutContents(PutAll(init), m);
      LastOfAppend(init, m, x);
      assert ms == init + [m];
    }
  }

  lemma {:induction false} RowIdOfEntry(list: seq<ChatMessage>, k: nat)
    requires UniqueIds(list) && k < |list|
    ensures RowIdIn(list, list[k].id) == list[k].dbId
  {
    if k < |list| - 1 {
      RowIdOfEntry(list[..|list| - 1], k);
    }
  }

  lemma {:induction false} NoRowId(list: seq<ChatMessage>, id: string)
    requires id !in Ids(list)
    ensures RowIdIn(list, id) == 0
  {
    if |list| > 0 {
      assert list == list[..|list| - 1] + [list[|list| - 1]];
      IdsAppend(list[..|list| - 1], list[|list| - 1]);
      NoRowId(list[..|list| - 1], id);
    }
  }

  lemma OverlayCarries(entries: seq<ChatMessage>, m: ChatMessage)
    requires UniqueIds(entries)
    ensures Carries(Overlay(entries, m), m, RowIdIn(entries, m.id))
  {
    var k := Find(entries, m.id);
    if k < |entries| {
      RowIdOfEntry(entries, k);
    } else {
      NoRowId(entries, m.id);
    }
  }

  lemma CarriesOne(x: ChatMessage, y: ChatMessage, m: ChatMessage, known: nat)
    requires Carries(x, m, known) && Carries(y, m, known)
    ensures x == y
  {
  }

  /** Lists with the same entries, each id once, know the same row ids. */
  lemma RowIdsAgree(a: seq<ChatMessage>, b: seq<ChatMessage>, id: string)
    requires UniqueIds(a) && UniqueIds(b)
    requires forall x: ChatMessage :: x.id == id ==> (x in a <==> x in b)
    ensures RowIdIn(a, id) == RowIdIn(b, id)
  {
    var k := Find(a, id);
    if k < |a| {
      RowIdOfEntry(a, k);
      assert a[k] in b;
      var l :| 0 <= l < |b| && b[l] == a[k];
      RowIdOfEntry(b, l);
    } else {
      NoRowId(a, id);
      NoRowId(b, id);
    }
  }

  /** The row ids after one message is laid over the entries. */
  lemma RowIdOfPut(entries: seq<ChatMessage>, m: ChatMessage, id: string)
    requires UniqueIds(entries)
    ensures RowIdIn(Put(entries, m), id) == if id == m.id then m.dbId else RowIdIn(entries, id)
  {
    PutContents(entries, m);
    var r := Put(entries, m);
    if id == m.id {
      assert m in r;
      var k :| 0 <= k < |r| && r[k] == m;
      RowIdOfEntry(r, k);
    } else {
      RowIdsAgree(entries, r, id);
    }
  }

  lemma {:induction false} OverlayAllRowIds(entries: seq<ChatMessage>, ms: seq<ChatMessage>, id: string)
    requires UniqueIds(entries)
    ensures UniqueIds(OverlayAll(entries, ms))
    ensures RowIdIn(OverlayAll(entries, ms), id) == RowIdAfter(RowIdIn(entries, id), ms, id)
  {
    if |ms| > 0 {
      var init, m := ms[..|ms| - 1], ms[|ms| - 1];
      OverlayAllRowIds(entries, init, id);
      var so := OverlayAll(entries, init);
      PutContents(so, Overlay(so, m));
      OverlayCarries(so, m);
      RowIdOfPut(so, Overlay(so, m), id);
    }
  }

  /** Some last message of `ms` is carried by `x`, with the row id known by then. */
  ghost predicate CarriesLast(x: ChatMessage, ms: seq<ChatMessage>, known: nat) {
    exists m: ChatMessage :: LastOf(ms, m) && Carries(x, m, RowIdAfter(known, ms, m.id))
  }

  lemma CarriesLastAppend(x: ChatMessage, ms: seq<ChatMessage>, m: ChatMessage, known: nat)
    ensures CarriesLast(x, ms + [m], known) <==>
            if x.id == m.id then Carries(x, m, RowIdAfter(known, ms, m.id)) else CarriesLast(x, ms, known)
  {
    var all := ms + [m];
    assert all[..|ms|] == ms;
    forall y: ChatMessage ensures LastOf(all, y) <==> y == m || (LastOf(ms, y) && y.id != m.id) {
      LastOfAppend(ms, m, y);
    }
  }

  lemma {:induction false} OverlayAllHolds(entries: seq<ChatMessage>, ms: seq<ChatMessage>, x: ChatMessage)
    requires UniqueIds(entries)
    ensures x in OverlayAll(entries, ms) <==>
            (x in entries && x.id !in Ids(ms)) || CarriesLast(x, ms, RowIdIn(entries, x.id))
  {
    if |ms| > 0 {
      var init, m := ms[..|ms| - 1], ms[|ms| - 1];
      var so := OverlayAll(entries, init);
      assert ms == init + [m];
      OverlayAllHolds(entries, init, x);
      OverlayAllRowIds(entries, init, m.id);
      PutContents(so, Overlay(so, m));
      OverlayCarries(so, m);
      IdsAppend(init, m);
      CarriesLastAppend(x, init, m, RowIdIn(entries, x.id));
      if x.id == m.id && Carries(x, m, RowIdIn(so, m.id)) {
        CarriesOne(x, Overlay(so, m), m, RowIdIn(so, m.id));
      }
    }
  }

  /**
    What a merge leaves: of an id the incoming list has, the fields of its last
    incoming message, flags cleared, with the last row id known for it; of any
    other id, the entry as it was.
   */
  lemma MergedHoldsIff(locale: (string, string) -> int, existing: seq<ChatMessage>, incoming: seq<ChatMessage>,
                       x: ChatMessage)
    ensures UniqueIds(Merged(locale, existing, incoming))
    ensures x in Merged(locale, existing, incoming) <==>
            (LastOf(existing, x) && x.id !in Ids(incoming)) || CarriesLast(x, incoming, RowIdIn(existing, x.id))
  {
    var entries := PutAll(existing);
    PutAllContents(existing);
    PutAllHolds(existing, x);
    PutAllRowIds(existing, x.id);
    OverlayAllRowIds(entries, incoming, x.id);
    OverlayAllHolds(entries, incoming, x);
    SortContents(locale, OverlayAll(entries, incoming));
  }

  lemma {:induction false} PutAllRowIds(ms: seq<ChatMessage>, id: string)
    ensures RowIdIn(PutAll(ms), id) == RowIdIn(ms, id)
  {
    if |ms| > 0 {
      PutAllRowIds(ms[..|ms| - 1], id);
      PutAllContents(ms[..|ms| - 1]);
      RowIdOfPut(PutAll(ms[..|ms| - 1]), ms[|ms| - 1], id);
    }
  }

  lemma {:induction false} RowIdAfterUnique(known: nat, ms: seq<ChatMessage>, m: ChatMessage)
    requires UniqueIds(ms)
    ensures m in ms ==> RowIdAfter(known, ms, m.id) == if m.dbId == 0 then known else m.dbId
    ensures m.id !in Ids(ms) ==> RowIdAfter(known, ms, m.id) == known
  {
    if |ms| > 0 {
      var init, last := ms[..|ms| - 1], ms[|ms| - 1];
      assert ms == init + [last];
      IdsAppend(init, last);
      RowIdAfterUnique(known, init, m);
      if m == last {
        assert m.id !in Ids(init);
      }
    }
  }

  /** The same for a page: its last message of an id gives the fields, and the row id if it has one. */
  lemma LoadedHoldsIff(locale: (string, string) -> int, list: seq<ChatMessage>, page: seq<ChatMessage>, x: ChatMessage)
    ensures UniqueIds(Loaded(locale, list, page))
    ensures x in Loaded(locale, list, page) <==>
            || (LastOf(list, x) && x.id !in Ids(page))
            || exists m :: LastOf(page, m) && Carries(x, m, RowIdIn(list, x.id))
  {
    var incoming := SortBy(Before(locale), PutAll(page));
    PutAllContents(page);
    SortContents(locale, PutAll(page));
    MergedHoldsIff(locale, list, incoming, x);
    forall m: ChatMessage ensures LastOf(incoming, m) <==> LastOf(page, m)
             ensures LastOf(page, m) ==> (Carries(x, m, RowIdAfter(RowIdIn(list, x.id), incoming, m.id)) <==>
                                          Carries(x, m, RowIdIn(list, x.id))) {
      LastOfUnique(incoming, m);
      PutAllHolds(page, m);
      RowIdAfterUnique(RowIdIn(list, x.id), incoming, m);
    }
    hide LastOf, RowIdIn, RowIdAfter, Merged, PutAll, UniqueIds;
  }

  /**
    One message: over an entry of its id its fields, flags cleared, and the known
    row id where it has none; without one it comes in as it is. Other entries stay.
   */
  lemma UpsertedHoldsIff(locale: (string, string) -> int, list: seq<ChatMessage>, m: ChatMessage, x: ChatMessage)
    requires UniqueIds(list)
    ensures x in Upserted(locale, list, m) <==>
            if x.id != m.id then x in list
            else if m.id in Ids(list) then Carries(x, m, RowIdIn(list, m.id))
            else x == m
  {
    var k := Find(list, m.id);
    var o := if k < |list| then Overlay(list, m) else m;
    PutContents(list, o);
    SortContents(locale, Put(list, o));
    OverlayCarries(list, m);
    if x.id == m.id && Carries(x, m, RowIdIn(list, m.id)) {
      CarriesOne(x, Overlay(list, m), m, RowIdIn(list, m.id));
    }
    assert k < |list| ==> list[k] in list;
  }

  /** A failed send marks the entries of its id, and leaves every other as it was. */
  lemma FailedHoldsIff(list: seq<ChatMessage>, id: string, x: ChatMessage)
    ensures x in MarkedFailed(list, id) <==>
            if x.id != id then x in list
            else x.failed && !x.pending
                 && exists p, f: bool :: x.(pending := p, failed := f) in list
  {
    var r := MarkedFailed(list, id);
    if x in r {
      var i :| 0 <= i < |r| && r[i] == x;
      assert list[i] == x.(pending := list[i].pending, failed := list[i].failed);
    }
    if x.id == id && x.failed && !x.pending {
      if p, f: bool :| x.(pending := p, failed := f) in list {
        var i :| 0 <= i < |list| && list[i] == x.(pending := p, failed := f);
        assert r[i] == x;
      }
    }
    if x.id != id && x in list {
      var i :| 0 <= i < |list| && list[i] == x;
      assert r[i] == x;
    }
  }

  /** One message raises the watermark to its number if that is higher, and never lowers it. */
  lemma ReceivedWatermark(locale: (string, string) -> int, known: Kept, m: ChatMessage)
    ensures var now := Received(locale, known, m).lastSeq;
            && now >= known.lastSeq && (m.seqNo.Some? ==> now >= m.seqNo.value)
            && (now == known.lastSeq || m.seqNo == Some(now))
  {
  }

  // ----- In what order the lists stand.

  /** Wherever the comparison is an order on what was sorted, the result stands in it. */
  lemma SortedWhereOrdered(locale: (string, string) -> int, list: seq<ChatMessage>)
    ensures var r := SortBy(Before(locale), list); StrictTotal(Before(locale), r) ==> Sorted(Before(locale), r)
  {
    SortSameElements(Before(locale), list);
    if StrictTotal(Before(locale), SortBy(Before(locale), list)) {
      StrictTotalIsWeak(Before(locale), list);
      SortSorts(Before(locale), list);
    }
  }

  lemma FailureKeepsComparisons(locale: (string, string) -> int, list: seq<ChatMessage>, id: string, i: nat, j: nat)
    requires i < |list| && j < |list|
    ensures Before(locale)(MarkedFailed(list, id)[i], MarkedFailed(list, id)[j]) == Before(locale)(list[i], list[j])
  {
  }

  /** Marking a message failed moves nothing, and leaves the comparison what it was. */
  lemma FailureKeepsOrder(locale: (string, string) -> int, list: seq<ChatMessage>, id: string)
    requires UniqueIds(list) && StrictTotal(Before(locale), MarkedFailed(list, id))
    ensures StrictTotal(Before(locale), list)
    ensures Sorted(Before(locale), list) ==> Sorted(Before(locale), MarkedFailed(list, id))
  {
    var r := MarkedFailed(list, id);
    forall i, j | 0 <= i < |list| && 0 <= j < |list|
      ensures Before(locale)(r[i], r[j]) == Before(locale)(list[i], list[j])
    {
      FailureKeepsComparisons(locale, list, id, i, j);
    }
    forall i, j | 0 <= i < |list| && 0 <= j < |list| && list[i] != list[j] ensures r[i] != r[j] {
      assert i < j || j < i;
      assert r[i].id == list[i].id && r[j].id == list[j].id;
    }
    OrderComesBack(Before(locale), list, r);
  }

  // ----- The store object.

  class Store {
    const locale: (string, string) -> int
    var messages: map<string, seq<ChatMessage>>
    var lastSeq: map<string, int>

    constructor (locale: (string, string) -> int)
      ensures messages == map[] && lastSeq == map[] && this.locale == locale
    {
      this.locale := locale;
      messages, lastSeq := map[], map[];
    }

    function ListOf(conv: string): seq<ChatMessage>
      reads this
    {
      if conv in messages then messages[conv] else []
    }

    function KeptOf(conv: string): Kept
      reads this
    {
      Kept(ListOf(conv), if conv in lastSeq then lastSeq[conv] else 0)
    }

    method MergeConversationMessages(existing: seq<ChatMessage>, incoming: seq<ChatMessage>)
      returns (out: seq<ChatMessage>)
      ensures out == Merged(locale, existing, incoming)
    {
      var merged: seq<ChatMessage> := [];
      for i := 0 to |existing|
        invariant merged == PutAll(existing[..i])
      {
        assert existing[..i + 1][..i] == existing[..i];
        merged := Put(merged, existing[i]);
      }
      assert existing[..|existing|] == existing;
      for i := 0 to |incoming|
        invariant merged == OverlayAll(PutAll(existing), incoming[..i])
      {
        assert incoming[..i + 1][..i] == incoming[..i];
        merged := Put(merged, Overlay(merged, incoming[i]));
      }
      assert incoming[..|incoming|] == incoming;
      out := SortBy(Before(locale), merged);
    }

    method HighestSeq(ms: seq<ChatMessage>, start: int) returns (highest: int)
      ensures highest == Highest(ms, start)
    {
      highest := start;
      for i := 0 to |ms|
        invariant highest == Highest(ms[..i], start)
      {
        assert ms[..i + 1][..i] == ms[..i];
        if ms[i].seqNo.Some? && ms[i].seqNo.value > highest {
          highest := ms[i].seqNo.value;
        }
      }
      assert ms[..|ms|] == ms;
    }

    method UpsertMessage(conv: string, m: ChatMessage)
      modifies this
      ensures KeptOf(conv) == Received(locale, old(KeptOf(conv)), m)
      ensures messages == old(messages)[conv := KeptOf(conv).list]
      ensures lastSeq == if KeptOf(conv).lastSeq == old(KeptOf(conv).lastSeq) then old(lastSeq)
                         else old(lastSeq)[conv := KeptOf(conv).lastSeq]
    {
      var current := ListOf(conv);
      var next := current;
      var k := Find(current, m.id);
      if k < |current| {
        next := next[k := Overlay(current, m)];
      } else {
        next := next + [m];
      }
      messages := messages[conv := SortBy(Before(locale), next)];
      if m.seqNo.Some? {
        var known := if conv in lastSeq then lastSeq[conv] else 0;
        if m.seqNo.value > known {
          lastSeq := lastSeq[conv := m.seqNo.value];
        }
      }
    }

    method CompleteRefresh(conv: string, page: seq<ChatMessage>)
      modifies this
      ensures KeptOf(conv) == Refreshed(locale, old(KeptOf(conv)), page)
      ensures messages == old(messages)[conv := KeptOf(conv).list]
      ensures lastSeq == if KeptOf(conv).lastSeq == old(KeptOf(conv).lastSeq) then old(lastSeq)
                         else old(lastSeq)[conv := KeptOf(conv).lastSeq]
    {
      var sorted := SortBy(Before(locale), PutAll(page));
      var list := MergeConversationMessages(ListOf(conv), sorted);
      messages := messages[conv := list];
      var highest := HighestSeq(sorted, 0);
      if highest > 0 {
        lastSeq := lastSeq[conv := highest];
      }
    }

    method CompleteCatchup(conv: string, afterSeq: int, page: seq<ChatMessage>)
      modifies this
      ensures KeptOf(conv) == CaughtUp(locale, old(KeptOf(conv)), afterSeq, page)
      ensures messages == if page == [] then old(messages) else old(messages)[conv := KeptOf(conv).list]
      ensures lastSeq == if page == [] then old(lastSeq) else old(lastSeq)[conv := KeptOf(conv).lastSeq]
    {
      var sorted := SortBy(Before(locale), PutAll(page));
      LoadedPageLength(locale, page);
      if |sorted| == 0 {
        return;
      }
      var list := MergeConversationMessages(ListOf(conv), sorted);
      messages := messages[conv := list];
      var highest := HighestSeq(sorted, afterSeq);
      lastSeq := lastSeq[conv := highest];
    }

    method SendFailed(conv: string, id: string)
      modifies this`messages
      ensures messages == old(messages)[conv := MarkedFailed(old(ListOf(conv)), id)]
    {
      var current := ListOf(conv);
      var next: seq<ChatMessage> := [];
      for i := 0 to |current|
        invariant |next| == i && forall k :: 0 <= k < i ==> next[k] == MarkedFailed(current, id)[k]
      {
        next := next + [if current[i].id == id then current[i].(pending := false, failed := true) else current[i]];
      }
      assert next == MarkedFailed(current, id);
      messages := messages[conv := next];
    }
  }
}
