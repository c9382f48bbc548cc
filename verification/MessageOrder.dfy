/**
  The order in which the web client lists messages: `compareMessagesByTime`
  (frontend/src/lib/chat.ts:389-421).

  It compares row ids when both sides have one, and otherwise times, sequence
  numbers and ids, so it mixes two orders. The main result says exactly when
  the mixture is an order at all.

  `locale` stands for `localeCompare` on ids.
 */
module MessageOrder {
  import opened MessageLog
  import opened Sorting

  /** A message of the client. `dbId` 0 is a missing row id; `createdAt` is None when missing or unparsable. */
  datatype ChatMessage = ChatMessage(
    id: string, dbId: nat, topic: string, createdAt: Option<int>, timestamp: Option<int>,
    seqNo: Option<int>, pending: bool, failed: bool)

  /** Milliseconds; a timestamp above 10^12 is taken to be in milliseconds already. */
  function SortTime(m: ChatMessage): int {
    if m.createdAt.Some? then m.createdAt.value
    else if m.timestamp.None? || m.timestamp.value == 0 then 0
    else if m.timestamp.value > 1_000_000_000_000 then m.timestamp.value
    else m.timestamp.value * 1000
  }

  /** `seq` as JavaScript's truth test sees it: missing and 0 are the same. */
  function SeqOf(m: ChatMessage): int {
    if m.seqNo.Some? then m.seqNo.value else 0
  }

  /**
    The time a message is sorted by: its creation; without one its timestamp, the
    same instant whether that is in seconds or in milliseconds; else zero.
   */
  lemma SortTimeIs(m: ChatMessage, at: int, seconds: int)
    ensures SortTime(m.(createdAt := Some(at))) == at
    ensures 1_000_000_000 < seconds <= 1_000_000_000_000 ==>
              && SortTime(m.(createdAt := None, timestamp := Some(seconds))) == 1000 * seconds
              && SortTime(m.(createdAt := None, timestamp := Some(1000 * seconds))) == 1000 * seconds
    ensures SortTime(m.(createdAt := None, timestamp := None)) == 0
  {
  }

  function Compare(locale: (string, string) -> int, left: ChatMessage, right: ChatMessage): int {
    if left.dbId != 0 && right.dbId != 0 && left.dbId != right.dbId then left.dbId - right.dbId
    else if SortTime(left) != SortTime(right) then SortTime(left) - SortTime(right)
    else if left.topic == right.topic && SeqOf(left) != 0 && SeqOf(right) != 0 && SeqOf(left) != SeqOf(right) then
      SeqOf(left) - SeqOf(right)
    else locale(left.id, right.id)
  }

  function Before(locale: (string, string) -> int): (ChatMessage, ChatMessage) -> bool {
    (left, right) => Compare(locale, left, right) < 0
  }

  /** `localeCompare` is a total order on ids. */
  ghost predicate TotalLocale(locale: (string, string) -> int) {
    && (forall x, y :: locale(x, y) == 0 <==> x == y)
    && (forall x, y :: locale(x, y) < 0 <==> locale(y, x) > 0)
    && (forall x, y, z :: locale(x, y) < 0 && locale(y, z) < 0 ==> locale(x, z) < 0)
  }

  ghost predicate UniqueIds(list: seq<ChatMessage>) {
    forall i, j :: 0 <= i < j < |list| ==> list[i].id != list[j].id
  }

  predicate Stored(m: ChatMessage) { m.dbId != 0 }

  /** What the client's lists are like: one entry per id, one per stored row, and `seq` only on stored messages. */
  ghost predicate Wellformed(list: seq<ChatMessage>) {
    && UniqueIds(list)
    && (forall a, b :: a in list && b in list && Stored(a) && a.dbId == b.dbId ==> a == b)
    && (forall a :: a in list && SeqOf(a) != 0 ==> Stored(a))
  }

  predicate KeyBefore(locale: (string, string) -> int, a: ChatMessage, b: ChatMessage) {
    SortTime(a) < SortTime(b) || (SortTime(a) == SortTime(b) && locale(a.id, b.id) < 0)
  }

  /**
    No unstored message falls, by time and id, between two stored messages that
    time and id put the other way round than their row ids do.
   */
  ghost predicate NothingStraddled(locale: (string, string) -> int, list: seq<ChatMessage>) {
    forall a, u, b :: (a in list && u in list && b in list && Stored(a) && !Stored(u) && Stored(b)
                       && KeyBefore(locale, b, u) && KeyBefore(locale, u, a)) ==> a.dbId >= b.dbId
  }

  /** `seq` is there, and not 0. */
  predicate HasSeq(m: ChatMessage) { m.seqNo.Some? && m.seqNo.value != 0 }

  /** Where one of two has no row id: by time, then on one topic by sequence number if both have one, then by id. */
  lemma UnstoredBeforeIff(locale: (string, string) -> int, a: ChatMessage, b: ChatMessage)
    requires !Stored(a) || !Stored(b)
    ensures SortTime(a) != SortTime(b) ==> (Before(locale)(a, b) <==> SortTime(a) < SortTime(b))
    ensures SortTime(a) == SortTime(b) && a.topic == b.topic && HasSeq(a) && HasSeq(b) && a.seqNo != b.seqNo ==>
              (Before(locale)(a, b) <==> a.seqNo.value < b.seqNo.value)
    ensures SortTime(a) == SortTime(b) && (a.topic != b.topic || !HasSeq(a) || !HasSeq(b) || a.seqNo == b.seqNo) ==>
              (Before(locale)(a, b) <==> locale(a.id, b.id) < 0)
  {
  }

  lemma SameIdSame(list: seq<ChatMessage>, a: ChatMessage, b: ChatMessage)
    requires UniqueIds(list) && a in list && b in list && a.id == b.id
    ensures a == b
  {
  }

  lemma CompareIsRowIdOrKey(locale: (string, string) -> int, list: seq<ChatMessage>, a: ChatMessage, b: ChatMessage)
    requires TotalLocale(locale) && Wellformed(list) && a in list && b in list
    ensures Before(locale)(a, b) <==>
            if Stored(a) && Stored(b) && a != b then a.dbId < b.dbId else KeyBefore(locale, a, b)
  {
  }

  /**
    On a list as the client holds them the comparison is a strict total order
    exactly when nothing is straddled. The sort is well defined then, and may
    depend on the engine otherwise.
   */
  lemma ComparatorIsOrderIff(locale: (string, string) -> int, list: seq<ChatMessage>)
    requires TotalLocale(locale) && Wellformed(list)
    ensures StrictTotal(Before(locale), list) <==> NothingStraddled(locale, list)
  {
    forall a, b | a in list && b in list
      ensures Before(locale)(a, b) <==>
            if Stored(a) && Stored(b) && a != b then a.dbId < b.dbId else KeyBefore(locale, a, b)
      ensures a != b ==> a.id != b.id
    {
      CompareIsRowIdOrKey(locale, list, a, b);
      if a.id == b.id {
        SameIdSame(list, a, b);
      }
    }
    if NothingStraddled(locale, list) {
      forall a, b, c | a in list && b in list && c in list && Before(locale)(a, b) && Before(locale)(b, c)
        ensures Before(locale)(a, c)
      {
        TransitiveUnlessStraddled(locale, list, a, b, c);
      }
    }
    if StrictTotal(Before(locale), list) {
      forall a, u, b | a in list && u in list && b in list && Stored(a) && !Stored(u) && Stored(b)
                       && KeyBefore(locale, b, u) && KeyBefore(locale, u, a)
        ensures a.dbId >= b.dbId
      {
        assert Before(locale)(b, u) && Before(locale)(u, a);
        assert Before(locale)(b, a);
      }
    }
  }

  lemma TransitiveUnlessStraddled(locale: (string, string) -> int, list: seq<ChatMessage>,
                                  a: ChatMessage, b: ChatMessage, c: ChatMessage)
    requires TotalLocale(locale) && Wellformed(list) && NothingStraddled(locale, list)
    requires a in list && b in list && c in list && Before(locale)(a, b) && Before(locale)(b, c)
    ensures Before(locale)(a, c)
  {
  }

  /** Messages all from the server, or stored messages whose row ids agree with their times: always in order. */
  lemma StoredOrAgreeingListsAreOrdered(locale: (string, string) -> int, list: seq<ChatMessage>)
    requires TotalLocale(locale) && Wellformed(list)
    requires (forall m :: m in list ==> Stored(m))
             || (forall a, b :: a in list && b in list && Stored(a) && Stored(b) && a.dbId < b.dbId ==>
                   SortTime(a) < SortTime(b))
    ensures StrictTotal(Before(locale), list)
  {
    ComparatorIsOrderIff(locale, list);
  }

  /** Without row ids, on one topic, sequence numbers may break ties as long as all messages have one or none has. */
  lemma UnstoredListsAreOrdered(locale: (string, string) -> int, list: seq<ChatMessage>)
    requires TotalLocale(locale) && UniqueIds(list)
    requires forall a :: a in list ==> !Stored(a)
    requires forall a, b :: a in list && b in list ==> a.topic == b.topic && (SeqOf(a) != 0 <==> SeqOf(b) != 0)
    ensures StrictTotal(Before(locale), list)
  {
  }

  /** Under the exact condition the displayed list depends on the messages alone, not on how they came in. */
  lemma DisplayedListIsUnique(locale: (string, string) -> int, list: seq<ChatMessage>, other: seq<ChatMessage>)
    requires TotalLocale(locale) && Wellformed(list) && NothingStraddled(locale, list)
    requires multiset(list) == multiset(other)
    ensures SortBy(Before(locale), list) == SortBy(Before(locale), other)
    ensures Sorted(Before(locale), SortBy(Before(locale), list))
  {
    ComparatorIsOrderIff(locale, list);
    SortIgnoresInputOrder(Before(locale), list, other);
    StrictTotalIsWeak(Before(locale), list);
    SortSorts(Before(locale), list);
  }

  /**
    Two rows committed in the order opposite to their senders' clocks and one
    message not yet stored, in between by time: each is before the next, round and round.
   */
  lemma StraddledListIsCyclic(locale: (string, string) -> int, topic: string)
    ensures var a := ChatMessage("a", 1, topic, Some(10), None, Some(1), false, false);
            var b := ChatMessage("b", 2, topic, Some(5), None, Some(2), false, false);
            var u := ChatMessage("u", 0, topic, Some(7), None, None, true, false);
            && Wellformed([a, b, u])
            && Before(locale)(a, b) && Before(locale)(b, u) && Before(locale)(u, a)
            && !StrictTotal(Before(locale), [a, b, u])
  {
    var a := ChatMessage("a", 1, topic, Some(10), None, Some(1), false, false);
    var b := ChatMessage("b", 2, topic, Some(5), None, Some(2), false, false);
    var u := ChatMessage("u", 0, topic, Some(7), None, None, true, false);
    var list := [a, b, u];
    assert list[0] == a && list[1] == b && list[2] == u;
    assert Before(locale)(a, b) && Before(locale)(b, u) && Before(locale)(u, a);
    assert a in list && b in list && u in list;
  }
}
