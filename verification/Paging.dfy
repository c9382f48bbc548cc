/**
  Reading a conversation page by page: the two repository queries, the limit and
  cursor rules of the service and the handler, and what chaining pages gives
  while saves keep committing
  (backend/internal/repository/message_repo.go:37-59,
  backend/internal/service/message_service.go:86-112,
  backend/internal/handler/message_handler.go:37-46, 109-114).
 */
module Paging {
  import opened MessageLog
  import opened Sorting
  import P = SaveProtocol

  // ----- The queries, on the whole unordered table.

  predicate Ascending(a: Row, b: Row) { a.seqNo < b.seqNo }

  predicate Descending(a: Row, b: Row) { a.seqNo > b.seqNo }

  /** `WHERE conversation_id = ? [AND seq > lo] [AND seq < hi]`; a bound that is not positive is no bound. */
  function Where(rows: seq<Row>, c: ConvId, lo: int, hi: int): seq<Row> {
    if |rows| == 0 then []
    else
      var r := rows[|rows| - 1];
      var rest := Where(rows[..|rows| - 1], c, lo, hi);
      if r.msg.conv == c && (lo <= 0 || r.seqNo > lo) && (hi <= 0 || r.seqNo < hi) then rest + [r] else rest
  }

  function Limit(rows: seq<Row>, n: nat): seq<Row> {
    if |rows| <= n then rows else rows[..n]
  }

  function Reversed(rows: seq<Row>): (r: seq<Row>)
    ensures |r| == |rows|
    ensures forall i :: 0 <= i < |rows| ==> r[i] == rows[|rows| - 1 - i]
  {
    seq(|rows|, i requires 0 <= i < |rows| => rows[|rows| - 1 - i])
  }

  /** The page of `GetByConversationID`: newest first from the database, then turned round. */
  function PageBefore(table: Table, c: ConvId, limit: nat, before: int): seq<Row> {
    Reversed(Limit(SortBy(Descending, Where(table, c, 0, before)), limit))
  }

  function PageAfter(table: Table, c: ConvId, limit: nat, after: int): seq<Row> {
    Limit(SortBy(Ascending, Where(table, c, after, 0)), limit)
  }

  /** Turns a page round in place, two indices closing in on each other. */
  method ReversePage(msgs: array<Row>)
    modifies msgs
    ensures msgs[..] == Reversed(old(msgs[..]))
  {
    ghost var was := msgs[..];
    var n := msgs.Length;
    var i, j := 0, n - 1;
    while i < j
      invariant 0 <= i <= n && j == n - 1 - i && i <= j + 2
      invariant forall k :: 0 <= k < i ==> msgs[k] == was[n - 1 - k]
      invariant forall k :: j < k < n ==> msgs[k] == was[n - 1 - k]
      invariant forall k :: i <= k <= j ==> msgs[k] == was[k]
    {
      msgs[i], msgs[j] := msgs[j], msgs[i];
      i, j := i + 1, j - 1;
    }
  }

  method GetByConversationID(table: Table, c: ConvId, limit: nat, before: int) returns (msgs: array<Row>)
    ensures fresh(msgs) && msgs[..] == PageBefore(table, c, limit, before)
  {
    var found := Limit(SortBy(Descending, Where(table, c, 0, before)), limit);
    msgs := new Row[|found|](i requires 0 <= i < |found| => found[i]);
    assert msgs[..] == found;
    ReversePage(msgs);
  }

  // ----- Limits and cursors.

  function HandlerLimit(limit: int): int {
    if limit < 1 || limit > 200 then 50 else limit
  }

  function ServiceLimit(limit: int): nat {
    if limit <= 0 then 50 else if limit > 200 then 200 else limit
  }

  function PageSize(limit: int): nat {
    ServiceLimit(HandlerLimit(limit))
  }

  /**
    What a request for `limit` messages gets through handler and service: that many
    from 1 to 200, else 50. The service alone would make 200 of what is above.
   */
  lemma PageSizeRange(limit: int)
    ensures 1 <= limit <= 200 ==> PageSize(limit) == limit
    ensures limit < 1 || limit > 200 ==> PageSize(limit) == 50
    ensures 1 <= PageSize(limit) <= 200 && (limit > 200 ==> ServiceLimit(limit) == 200)
  {
  }

  /** `loadMessages`: a positive `after_seq` selects the forward query, anything else the backward one. */
  function LoadMessages(table: Table, c: ConvId, limit: int, before: int, after: int): seq<Row> {
    if after > 0 then PageAfter(table, c, PageSize(limit), after)
    else PageBefore(table, c, PageSize(limit), before)
  }

  // ----- What the queries select, once the log is contiguous.

  function Min(a: int, b: int): int { if a < b then a else b }

  function Max(a: int, b: int): int { if a < b then b else a }

  ghost predicate Numbered(log: seq<Row>) {
    forall i :: 0 <= i < |log| ==> log[i].seqNo == i + 1
  }

  /** How many rows of a log of `n` lie below the cursor. */
  function Below(n: nat, before: int): nat {
    if before <= 0 then n else Min(n, before - 1)
  }

  /** The newest `size` rows below the cursor, oldest first. */
  function Newest(log: seq<Row>, size: nat, before: int): seq<Row> {
    var to := Below(|log|, before);
    log[Max(0, to - size)..to]
  }

  /** The `size` rows right behind the cursor. */
  function Next(log: seq<Row>, size: nat, after: nat): seq<Row> {
    var from := Min(|log|, after);
    log[from..Min(|log|, from + size)]
  }

  /** The rows of a log between the two bounds. */
  function Stretch(log: seq<Row>, lo: int, hi: int): seq<Row> {
    var to := Below(|log|, hi);
    log[Min(to, Max(lo, 0))..to]
  }

  lemma StretchGrows(log: seq<Row>, r: Row, lo: int, hi: int)
    requires r.seqNo == |log| + 1
    ensures Stretch(log + [r], lo, hi)
            == if (lo <= 0 || r.seqNo > lo) && (hi <= 0 || r.seqNo < hi) then Stretch(log, lo, hi) + [r]
               else Stretch(log, lo, hi)
  {
    var n := |log|;
    if (lo <= 0 || r.seqNo > lo) && (hi <= 0 || r.seqNo < hi) {
      assert (log + [r])[Max(lo, 0)..n + 1] == log[Max(lo, 0)..n] + [r];
    } else if hi > 0 && r.seqNo >= hi {
      var to := Below(n, hi);
      assert (log + [r])[Min(to, Max(lo, 0))..to] == log[Min(to, Max(lo, 0))..to];
    } else {
      assert (log + [r])[n + 1..n + 1] == log[n..n];
    }
  }

  lemma {:induction false} WhereIsSlice(table: Table, c: ConvId, lo: int, hi: int)
    requires Numbered(RowsOf(table, c))
    ensures Where(table, c, lo, hi) == Stretch(RowsOf(table, c), lo, hi)
  {
    if |table| > 0 {
      var init, r := table[..|table| - 1], table[|table| - 1];
      var log, prev := RowsOf(table, c), RowsOf(init, c);
      assert forall i :: 0 <= i < |prev| ==> prev[i] == log[i];
      WhereIsSlice(init, c, lo, hi);
      if r.msg.conv == c {
        assert log == prev + [r] && log[|prev|].seqNo == |prev| + 1;
        StretchGrows(prev, r, lo, hi);
      }
      hide Stretch, Below;
    }
  }

  lemma StrictTotalBySeq(rows: seq<Row>)
    requires forall i, j :: 0 <= i < j < |rows| ==> rows[i].seqNo != rows[j].seqNo
    ensures StrictTotal(Ascending, rows) && StrictTotal(Descending, rows)
  {
  }

  lemma {:induction false} ReversedKeeps(rows: seq<Row>)
    ensures multiset(Reversed(rows)) == multiset(rows)
  {
    if |rows| > 0 {
      var init, last := rows[..|rows| - 1], rows[|rows| - 1];
      assert Reversed(rows) == [last] + Reversed(init);
      assert rows == init + [last];
      ReversedKeeps(init);
    }
  }

  /** Rows that come in ascending order are left so, or turned round. */
  lemma AscendingSorts(rows: seq<Row>)
    requires forall i, j :: 0 <= i < j < |rows| ==> rows[i].seqNo < rows[j].seqNo
    ensures SortBy(Ascending, rows) == rows
    ensures SortBy(Descending, rows) == Reversed(rows)
  {
    StrictTotalBySeq(rows);
    SortOfSorted(Ascending, rows, rows);
    ReversedKeeps(rows);
    SortOfSorted(Descending, rows, Reversed(rows));
  }

  lemma ReversedPage(rows: seq<Row>, size: nat)
    ensures Reversed(Limit(Reversed(rows), size)) == rows[Max(0, |rows| - size)..]
  {
  }

  lemma SortedPageIsNewest(log: seq<Row>, size: nat, before: int)
    requires Numbered(log)
    ensures Reversed(Limit(SortBy(Descending, log[0..Below(|log|, before)]), size)) == Newest(log, size, before)
  {
    var to := Below(|log|, before);
    var rows := log[0..to];
    AscendingSorts(rows);
    ReversedPage(rows, size);
    assert rows[Max(0, to - size)..] == log[Max(0, to - size)..to];
  }

  /** A backward page is the newest `PageSize` rows below the cursor, oldest first. */
  lemma BackwardPageIsNewest(table: Table, c: ConvId, limit: int, before: int, after: int)
    requires Numbered(RowsOf(table, c)) && after <= 0
    ensures LoadMessages(table, c, limit, before, after) == Newest(RowsOf(table, c), PageSize(limit), before)
  {
    WhereIsSlice(table, c, 0, before);
    SortedPageIsNewest(RowsOf(table, c), PageSize(limit), before);
  }

  lemma SortedPageIsNext(log: seq<Row>, size: nat, after: nat)
    requires Numbered(log)
    ensures Limit(SortBy(Ascending, log[Min(|log|, after)..|log|]), size) == Next(log, size, after)
  {
    var from := Min(|log|, after);
    var rows := log[from..|log|];
    AscendingSorts(rows);
    assert Limit(rows, size) == log[from..Min(|log|, from + size)];
  }

  /** A forward page is the `PageSize` rows right behind the cursor. */
  lemma ForwardPageIsNext(table: Table, c: ConvId, limit: int, before: int, after: int)
    requires Numbered(RowsOf(table, c)) && after > 0
    ensures LoadMessages(table, c, limit, before, after) == Next(RowsOf(table, c), PageSize(limit), after)
  {
    WhereIsSlice(table, c, after, 0);
    SortedPageIsNext(RowsOf(table, c), PageSize(limit), after);
    hide RowsOf, Where, PageSize, SortBy, Limit, Next;
  }

  /** How many rows a cursor leaves: those behind a forward one, those below a backward one, or all. */
  function Available(n: nat, before: int, after: int): nat {
    if after > 0 then Max(0, n - after) else Below(n, before)
  }

  /** A request gets the number of messages it asks for as far as the log reaches; out of range it gets 50. */
  lemma PageHasRequestedSize(table: Table, c: ConvId, limit: int, before: int, after: int)
    requires Numbered(RowsOf(table, c))
    ensures var page, available := LoadMessages(table, c, limit, before, after),
                                   Available(|RowsOf(table, c)|, before, after);
            && (1 <= limit <= 200 ==> |page| == Min(limit, available))
            && (limit < 1 || limit > 200 ==> |page| == Min(50, available))
  {
    PageSizeRange(limit);
    if after > 0 {
      ForwardPageIsNext(table, c, limit, before, after);
    } else {
      BackwardPageIsNewest(table, c, limit, before, after);
    }
    hide LoadMessages, RowsOf, PageSize;
  }

  // ----- Chains of requests. Request i is answered from the table `snap(i)`.

  /** Tables seen at successive requests: each log sound, each a continuation of the one before. */
  ghost predicate Snapshots(snap: nat -> Table, c: ConvId) {
    && (forall i: nat :: Numbered(RowsOf(snap(i), c)))
    && (forall i: nat, j: nat :: i <= j ==> RowsOf(snap(i), c) <= RowsOf(snap(j), c))
  }

  /** Successive times of any run of saves are such snapshots. */
  lemma RunGivesSnapshots(hash: ConvId -> int, schedule: nat -> seq<P.Step>, c: ConvId)
    requires forall i: nat, j: nat :: i <= j ==> schedule(i) <= schedule(j)
    ensures Snapshots((i: nat) => P.Exec(hash, schedule(i)).table, c)
  {
    forall i: nat ensures Numbered(P.LogAfter(hash, schedule(i), c)) {
      P.EveryRunKeepsLogs(hash, schedule(i), c);
    }
    forall i: nat, j: nat | i <= j ensures P.LogAfter(hash, schedule(i), c) <= P.LogAfter(hash, schedule(j), c) {
      var more := schedule(j)[|schedule(i)|..];
      assert schedule(i) + more == schedule(j);
      P.LogsOnlyGrow(hash, schedule(i), more, c);
    }
  }

  /** Ask for the page below the first row got so far, until a page comes back empty. */
  ghost function BackwardWalk(snap: nat -> Table, i: nat, c: ConvId, limit: int, before: int): seq<Row>
    requires forall k: nat :: Numbered(RowsOf(snap(k), c))
    decreases if before <= 0 then 1 else 0, before
  {
    BackwardPageIsNewest(snap(i), c, limit, before, 0);
    var page := LoadMessages(snap(i), c, limit, before, 0);
    if page == [] then []
    else BackwardWalk(snap, i + 1, c, limit, page[0].seqNo) + page
  }

  lemma NewestTiles(log: seq<Row>, later: seq<Row>, size: nat, before: int)
    requires Numbered(log) && log <= later && size >= 1
    requires Newest(log, size, before) != []
    ensures var page := Newest(log, size, before);
            && 1 <= page[0].seqNo && (before > 0 ==> page[0].seqNo < before)
            && later[..Below(|later|, page[0].seqNo)] + page == log[..Below(|log|, before)]
  {
  }

  lemma NewestOfNone(log: seq<Row>, size: nat, before: int)
    requires size >= 1 && Newest(log, size, before) == []
    ensures log[..Below(|log|, before)] == []
  {
  }

  /**
    Walking backward rebuilds, in order and without gap or repeat, everything
    below the cursor as it stood at the first request, however many saves commit
    during the walk. From "no cursor" that is the whole log. The next cursor is
    a sequence number, so it is at least 1 and never falls back to "no cursor".
   */
  lemma {:induction false} BackwardWalkRebuilds(snap: nat -> Table, i: nat, c: ConvId, limit: int, before: int)
    requires Snapshots(snap, c)
    ensures var log := RowsOf(snap(i), c);
            BackwardWalk(snap, i, c, limit, before) == log[..Below(|log|, before)]
    decreases if before <= 0 then 1 else 0, before
  {
    var log, later := RowsOf(snap(i), c), RowsOf(snap(i + 1), c);
    BackwardPageIsNewest(snap(i), c, limit, before, 0);
    var page := Newest(log, PageSize(limit), before);
    if page == [] {
      NewestOfNone(log, PageSize(limit), before);
    } else {
      assert log <= later;
      NewestTiles(log, later, PageSize(limit), before);
      BackwardWalkRebuilds(snap, i + 1, c, limit, page[0].seqNo);
    }
    hide LoadMessages, Newest, Below, RowsOf, PageSize;
  }

  function CursorAfter(page: seq<Row>, after: nat): nat {
    if page == [] then after else page[|page| - 1].seqNo
  }

  /**
    The rows got by `rounds` forward requests, each from the last row of the
    page before; `fetch(k, a)` is the answer to request k with cursor a.
   */
  function ForwardChain(fetch: (nat, nat) -> seq<Row>, i: nat, rounds: nat, after: nat): seq<Row>
    decreases rounds
  {
    if rounds == 0 then []
    else fetch(i, after) + ForwardChain(fetch, i + 1, rounds - 1, CursorAfter(fetch(i, after), after))
  }

  /** The cursor such a chain ends with. */
  function ForwardCursor(fetch: (nat, nat) -> seq<Row>, i: nat, rounds: nat, after: nat): nat
    decreases rounds
  {
    if rounds == 0 then after
    else ForwardCursor(fetch, i + 1, rounds - 1, CursorAfter(fetch(i, after), after))
  }

  /**
    The answers to `rounds` requests in terms of the last log `log` alone: request
    k sees its first `seen(k)` rows and gets those behind its cursor, `size` at most.
   */
  ghost predicate Answers(fetch: (nat, nat) -> seq<Row>, log: seq<Row>, seen: nat -> nat, size: nat, rounds: nat) {
    && (forall k: nat, a: nat :: k < rounds && a >= 1 ==>
          && fetch(k, a) == Between(log, a, Min(seen(k), a + size))
          && CursorAfter(fetch(k, a), a) == Max(a, Min(seen(k), a + size)))
    && (forall k: nat, l: nat :: k <= l < rounds ==> seen(k) <= seen(l) <= |log|)
  }

  /** The rows of a log behind position `from`, up to position `to`. */
  function Between(log: seq<Row>, from: nat, to: nat): seq<Row> {
    if from <= to <= |log| then log[from..to] else []
  }

  lemma NextAsBetween(log: seq<Row>, later: seq<Row>, size: nat, after: nat)
    requires Numbered(log) && log <= later
    ensures Next(log, size, after) == Between(later, after, Min(|log|, after + size))
    ensures CursorAfter(Next(log, size, after), after) == Max(after, Min(|log|, after + size))
  {
  }

  lemma OneRound(n: nat, size: nat)
    requires n > 0
    ensures n * size == size + (n - 1) * size
  {
  }

  lemma {:induction false} CursorMoves(fetch: (nat, nat) -> seq<Row>, log: seq<Row>, seen: nat -> nat, size: nat,
                                       i: nat, rounds: nat, after: nat)
    requires Answers(fetch, log, seen, size, rounds) && i <= rounds && after >= 1
    ensures var last := ForwardCursor(fetch, i, rounds - i, after);
            && after <= last <= Max(after, |log|)
            && last >= Min(if i < rounds then seen(i) else after, after + (rounds - i) * size)
    decreases rounds - i
  {
    if i < rounds {
      var next := CursorAfter(fetch(i, after), after);
      CursorMoves(fetch, log, seen, size, i + 1, rounds, next);
      assert seen(i) <= |log|;
      assert i + 1 < rounds ==> seen(i) <= seen(i + 1);
      OneRound(rounds - i, size);
    }
  }

  lemma AnswerAt(fetch: (nat, nat) -> seq<Row>, log: seq<Row>, seen: nat -> nat, size: nat, rounds: nat, k: nat, a: nat)
    requires Answers(fetch, log, seen, size, rounds) && k < rounds && a >= 1
    ensures fetch(k, a) == Between(log, a, Min(seen(k), a + size))
    ensures CursorAfter(fetch(k, a), a) == Max(a, Min(seen(k), a + size)) >= a
    ensures 0 <= Min(seen(k), a + size) <= seen(k) <= |log|
  {
  }

  lemma ChainEnds(fetch: (nat, nat) -> seq<Row>, log: seq<Row>, i: nat, after: nat)
    ensures ForwardChain(fetch, i, 0, after) == Between(log, after, ForwardCursor(fetch, i, 0, after))
  {
  }

  lemma ChainUnfolds(fetch: (nat, nat) -> seq<Row>, i: nat, rounds: nat, after: nat)
    requires rounds > 0
    ensures var next := CursorAfter(fetch(i, after), after);
            && ForwardChain(fetch, i, rounds, after) == fetch(i, after) + ForwardChain(fetch, i + 1, rounds - 1, next)
            && ForwardCursor(fetch, i, rounds, after) == ForwardCursor(fetch, i + 1, rounds - 1, next)
  {
  }

  lemma {:induction false} ChainIsGapless(fetch: (nat, nat) -> seq<Row>, log: seq<Row>, seen: nat -> nat, size: nat,
                                          i: nat, rounds: nat, after: nat)
    requires Answers(fetch, log, seen, size, rounds) && i <= rounds && after >= 1
    ensures ForwardChain(fetch, i, rounds - i, after) == Between(log, after, ForwardCursor(fetch, i, rounds - i, after))
    decreases rounds - i
  {
    hide *;
    if i == rounds {
      ChainEnds(fetch, log, i, after);
    } else {
      var next, last := CursorAfter(fetch(i, after), after), ForwardCursor(fetch, i, rounds - i, after);
      AnswerAt(fetch, log, seen, size, rounds, i, after);
      CursorMoves(fetch, log, seen, size, i + 1, rounds, next);
      ChainIsGapless(fetch, log, seen, size, i + 1, rounds, next);
      ChainUnfolds(fetch, i, rounds - i, after);
      BetweenJoins(log, after, Min(seen(i), after + size), next, last);
    }
  }

  lemma BetweenJoins(log: seq<Row>, from: nat, mid: nat, next: nat, to: nat)
    requires mid <= |log| && next == Max(from, mid) && next <= to <= Max(next, |log|)
    ensures Between(log, from, mid) + Between(log, next, to) == Between(log, from, to)
  {
  }

  /**
    From a cursor of at least 1, chained forward pages give exactly the rows
    behind the cursor up to the final cursor, each once and in order, with saves
    committing between requests. The cursor never falls back, never passes the
    log, and moves on by a full page until it meets the end of the log.
   */
  lemma ForwardChainIsGapless(snap: nat -> Table, rounds: nat, c: ConvId, limit: int, after: nat)
    requires Snapshots(snap, c) && after >= 1
    ensures var fetch := (k: nat, a: nat) => LoadMessages(snap(k), c, limit, 0, a);
            var last, log := ForwardCursor(fetch, 0, rounds, after), RowsOf(snap(rounds), c);
            && ForwardChain(fetch, 0, rounds, after) == Between(log, after, last)
            && after <= last <= Max(after, |log|)
            && last >= Min(|RowsOf(snap(0), c)|, after + rounds * PageSize(limit))
  {
    var fetch := (k: nat, a: nat) => LoadMessages(snap(k), c, limit, 0, a);
    var log, seen, size := RowsOf(snap(rounds), c), (k: nat) => |RowsOf(snap(k), c)|, PageSize(limit);
    AnswersHold(snap, rounds, c, limit);
    CursorMoves(fetch, log, seen, size, 0, rounds, after);
    ChainIsGapless(fetch, log, seen, size, 0, rounds, after);
  }

  lemma OneAnswer(table: Table, log: seq<Row>, c: ConvId, limit: int, after: nat)
    requires Numbered(RowsOf(table, c)) && RowsOf(table, c) <= log && after >= 1
    ensures var page, to := LoadMessages(table, c, limit, 0, after), Min(|RowsOf(table, c)|, after + PageSize(limit));
            page == Between(log, after, to) && CursorAfter(page, after) == Max(after, to)
  {
    ForwardPageIsNext(table, c, limit, 0, after);
    NextAsBetween(RowsOf(table, c), log, PageSize(limit), after);
  }

  lemma AnswersHold(snap: nat -> Table, rounds: nat, c: ConvId, limit: int)
    requires Snapshots(snap, c)
    ensures Answers((k: nat, a: nat) => LoadMessages(snap(k), c, limit, 0, a), RowsOf(snap(rounds), c),
                    (k: nat) => |RowsOf(snap(k), c)|, PageSize(limit), rounds)
  {
    forall k: nat, a: nat | k < rounds && a >= 1
      ensures var page, to := LoadMessages(snap(k), c, limit, 0, a), Min(|RowsOf(snap(k), c)|, a + PageSize(limit));
              page == Between(RowsOf(snap(rounds), c), a, to) && CursorAfter(page, a) == Max(a, to)
    {
      OneAnswer(snap(k), RowsOf(snap(rounds), c), c, limit, a);
    }
    forall k: nat, l: nat | k <= l < rounds
      ensures |RowsOf(snap(k), c)| <= |RowsOf(snap(l), c)| <= |RowsOf(snap(rounds), c)|
    {
    }
  }

  /**
    A cursor of 0 does not mean "from the start": the answer is the newest page,
    which is the first page exactly when the log is no longer than a page.
   */
  lemma ForwardFromZeroIff(table: Table, c: ConvId, limit: int)
    requires Numbered(RowsOf(table, c))
    ensures (LoadMessages(table, c, limit, 0, 0) == Limit(RowsOf(table, c), PageSize(limit)))
            <==> (|RowsOf(table, c)| <= PageSize(limit))
  {
    var log, size := RowsOf(table, c), PageSize(limit);
    BackwardPageIsNewest(table, c, limit, 0, 0);
    if |log| > size {
      assert Newest(log, size, 0)[0] == log[|log| - size];
      assert Limit(log, size)[0] == log[0];
    }
  }
}
