/**
  One conversation of one web client against the live server: saves of any
  number of transactions, refreshes and catch-ups answered at any later moment
  and completed in any order, echoes from the broker, optimistic sends and
  failed sends, all interleaved at will
  (frontend/src/contexts/ChatContext.tsx:108-153, 211-297, 331-394).

  As in `SaveProtocol`, a run is any sequence of events and an event that
  cannot happen changes nothing.
 */
module ChatSession {
  import opened MessageLog
  import opened Sorting
  import opened MessageOrder
  import opened ChatStore
  import opened Paging
  import P = SaveProtocol

  datatype Env = Env(hash: ConvId -> int, locale: (string, string) -> int, conv: ConvId, maxBatch: int)

  datatype Kind = Refresh | Catchup(afterSeq: nat)

  datatype Request = Issued(kind: Kind) | Served(kind: Kind, page: seq<Row>)

  datatype Session = Session(server: P.State, list: seq<ChatMessage>, lastSeq: int, requests: map<nat, Request>)

  const START := Session(P.INITIAL, [], 0, map[])

  datatype Event =
    | Server(step: P.Step)
    | IssueRefresh(r: nat)
    | IssueCatchup(r: nat)
    | Serve(r: nat)
    | Complete(r: nat)
    | Echo(m: ChatMessage)
    | Send(m: ChatMessage)
    | SendFailed(id: string)

  function Log(env: Env, s: Session): seq<Row> {
    RowsOf(s.server.table, env.conv)
  }

  /** `normalizeApiMessage` of a stored row. */
  function FromRow(row: Row): ChatMessage {
    ChatMessage(row.msg.id, row.dbId, row.msg.conv, Some(row.msg.createdAt), None, Some(row.seqNo), false, false)
  }

  function FromRows(rows: seq<Row>): (ms: seq<ChatMessage>)
    ensures |ms| == |rows| && forall i :: 0 <= i < |rows| ==> ms[i] == FromRow(rows[i])
  {
    seq(|rows|, i requires 0 <= i < |rows| => FromRow(rows[i]))
  }

  /** A refresh asks for a default page, a catch-up for `maxBatch` messages behind the watermark. */
  function Answer(env: Env, table: Table, kind: Kind): seq<Row> {
    match kind
    case Refresh => LoadMessages(table, env.conv, 50, 0, 0)
    case Catchup(a) => LoadMessages(table, env.conv, env.maxBatch, 0, a)
  }

  /** Messages of the senders shown carry no sequence number and no row id; a sent id is new. */
  predicate Enabled(env: Env, s: Session, e: Event) {
    match e
    case Server(_) => true
    case IssueRefresh(r) => r !in s.requests
    case IssueCatchup(r) => r !in s.requests && s.lastSeq > 0
    case Serve(r) => r in s.requests && s.requests[r].Issued?
    case Complete(r) => r in s.requests && s.requests[r].Served?
    case Echo(m) => m.dbId == 0 && m.seqNo.None? && !m.pending
    case Send(m) => m.dbId == 0 && m.seqNo.None? && m.pending && forall i :: 0 <= i < |s.list| ==> s.list[i].id != m.id
    case SendFailed(_) => true
  }

  function Apply(env: Env, s: Session, e: Event): Session {
    if !Enabled(env, s, e) then s
    else
      match e
      case Server(step) => s.(server := P.Apply(env.hash, s.server, step))
      case IssueRefresh(r) => s.(requests := s.requests[r := Issued(Refresh)])
      case IssueCatchup(r) => s.(requests := s.requests[r := Issued(Catchup(s.lastSeq))])
      case Serve(r) =>
        var kind := s.requests[r].kind;
        s.(requests := s.requests[r := Served(kind, Answer(env, s.server.table, kind))])
      case Complete(r) =>
        Completed(env, s.(requests := s.requests - {r}), s.requests[r].kind, FromRows(s.requests[r].page))
      case Echo(m) => With(s, Received(env.locale, Kept(s.list, s.lastSeq), m))
      case Send(m) => With(s, Received(env.locale, Kept(s.list, s.lastSeq), m))
      case SendFailed(id) => s.(list := MarkedFailed(s.list, id))
  }

  /** The store's part of a session, replaced. */
  function With(s: Session, kept: Kept): Session {
    s.(list := kept.list, lastSeq := kept.lastSeq)
  }

  /** What the store's `CompleteRefresh` and `CompleteCatchup` do. */
  function Completed(env: Env, s: Session, kind: Kind, page: seq<ChatMessage>): Session {
    var known := Kept(s.list, s.lastSeq);
    With(s, match kind
            case Refresh => Refreshed(env.locale, known, page)
            case Catchup(a) => CaughtUp(env.locale, known, a, page))
  }

  function Exec(env: Env, events: seq<Event>): Session {
    if |events| == 0 then START else Apply(env, Exec(env, events[..|events| - 1]), events[|events| - 1])
  }

  // ----- The invariant.

  /** The client has every row whose number lies in the 50 up to `top`. */
  ghost predicate Holds(ids: set<string>, log: seq<Row>, top: int) {
    forall k :: 0 <= k < |log| && top - 50 <= k < top ==> log[k].msg.id in ids
  }

  /** A row id on the client is that of the stored row of the same message; `seq` never comes without one. */
  ghost predicate EntryOk(log: seq<Row>, m: ChatMessage) {
    && (Stored(m) ==> exists k :: 0 <= k < |log| && log[k].dbId == m.dbId && log[k].msg.id == m.id)
    && (SeqOf(m) != 0 ==> Stored(m))
  }

  ghost predicate RequestOk(ids: set<string>, log: seq<Row>, q: Request) {
    && (q.kind.Catchup? ==> 1 <= q.kind.afterSeq <= |log| && Holds(ids, log, q.kind.afterSeq))
    && (q.Served? ==> PageOk(log, q.kind, q.page))
  }

  function Start(kind: Kind): nat {
    if kind.Catchup? then kind.afterSeq else 0
  }

  /** The sequence number a response leads to. */
  function Top(kind: Kind, page: seq<Row>): nat {
    CursorAfter(page, Start(kind))
  }

  function From(kind: Kind, top: nat): nat {
    if kind.Catchup? then kind.afterSeq else if top <= 50 then 0 else top - 50
  }

  /** The page is the stretch of the log its kind asks for, as it stood when the request was served. */
  ghost predicate PageOk(log: seq<Row>, kind: Kind, page: seq<Row>) {
    var top := Top(kind, page);
    page == Between(log, From(kind, top), top) && top <= |log|
  }

  ghost predicate Inv(env: Env, s: Session) {
    && P.Inv(env.hash, s.server)
    && 0 <= s.lastSeq <= |Log(env, s)|
    && UniqueIds(s.list)
    && AllOf(m => EntryOk(Log(env, s), m), s.list)
    && Holds(Ids(s.list), Log(env, s), s.lastSeq)
    && forall r :: r in s.requests ==> RequestOk(Ids(s.list), Log(env, s), s.requests[r])
  }

  lemma StableEntries(log: seq<Row>)
    ensures Stable(m => EntryOk(log, m))
  {
  }

  lemma HoldsGrows(ids: set<string>, log: seq<Row>, ids': set<string>, log': seq<Row>, top: int)
    requires Holds(ids, log, top) && ids <= ids' && log <= log' && top <= |log|
    ensures Holds(ids', log', top)
  {
  }

  lemma RequestGrows(ids: set<string>, log: seq<Row>, ids': set<string>, log': seq<Row>, q: Request)
    requires RequestOk(ids, log, q) && ids <= ids' && log <= log'
    ensures RequestOk(ids', log', q)
  {
  }

  lemma EntryGrows(log: seq<Row>, log': seq<Row>, m: ChatMessage)
    requires EntryOk(log, m) && log <= log'
    ensures EntryOk(log', m)
  {
  }

  /** The requests and the watermark survive anything that only adds entries and rows. */
  lemma InvGrows(env: Env, s: Session, s': Session)
    requires Inv(env, s) && P.Inv(env.hash, s'.server)
    requires Log(env, s) <= Log(env, s') && s'.lastSeq == s.lastSeq
    requires UniqueIds(s'.list) && AllOf(m => EntryOk(Log(env, s'), m), s'.list) && Ids(s.list) <= Ids(s'.list)
    requires forall r :: r in s'.requests ==> r in s.requests && s'.requests[r] == s.requests[r]
    ensures Inv(env, s')
  {
    HoldsGrows(Ids(s.list), Log(env, s), Ids(s'.list), Log(env, s'), s.lastSeq);
    forall r | r in s'.requests ensures RequestOk(Ids(s'.list), Log(env, s'), s'.requests[r]) {
      RequestGrows(Ids(s.list), Log(env, s), Ids(s'.list), Log(env, s'), s.requests[r]);
    }
  }

  lemma ServerStep(env: Env, s: Session, step: P.Step)
    requires Inv(env, s)
    ensures Inv(env, Apply(env, s, Server(step)))
  {
    var s' := Apply(env, s, Server(step));
    P.InvStep(env.hash, s.server, step);
    P.StepGrows(env.hash, s.server, step, env.conv);
    forall m | m in s'.list ensures EntryOk(Log(env, s'), m) {
      EntryGrows(Log(env, s), Log(env, s'), m);
    }
    InvGrows(env, s, s');
  }

  lemma ServeStep(env: Env, s: Session, r: nat)
    requires Inv(env, s) && r in s.requests && s.requests[r].Issued?
    ensures Inv(env, Apply(env, s, Serve(r)))
  {
    var log, kind := Log(env, s), s.requests[r].kind;
    assert LogOk(log);
    AnswerIsStretch(env, s.server.table, kind);
    assert RequestOk(Ids(s.list), log, s.requests[r]);
  }

  lemma AnswerIsStretch(env: Env, table: Table, kind: Kind)
    requires LogOk(RowsOf(table, env.conv))
    requires kind.Catchup? ==> 1 <= kind.afterSeq <= |RowsOf(table, env.conv)|
    ensures PageOk(RowsOf(table, env.conv), kind, Answer(env, table, kind))
    ensures Top(kind, Answer(env, table, kind)) == match kind
              case Refresh => |RowsOf(table, env.conv)|
              case Catchup(a) => Min(|RowsOf(table, env.conv)|, a + PageSize(env.maxBatch))
  {
    var log := RowsOf(table, env.conv);
    match kind
    case Refresh =>
      BackwardPageIsNewest(table, env.conv, 50, 0, 0);
      if log != [] {
        assert Newest(log, 50, 0)[|Newest(log, 50, 0)| - 1] == log[|log| - 1];
      }
    case Catchup(a) =>
      OneAnswer(table, log, env.conv, env.maxBatch, a);
  }

  lemma {:induction false} HighestIsMax(ms: seq<ChatMessage>, start: int)
    ensures Highest(ms, start) >= start
    ensures forall m :: m in ms && m.seqNo.Some? ==> m.seqNo.value <= Highest(ms, start)
    ensures Highest(ms, start) == start || exists m :: m in ms && m.seqNo == Some(Highest(ms, start))
  {
    if |ms| > 0 {
      var init, m := ms[..|ms| - 1], ms[|ms| - 1];
      HighestIsMax(init, start);
      assert ms == init + [m];
      assert m in ms;
    }
  }

  /** The top of a page that is a stretch of the log is where the stretch ends. */
  lemma TopOfPage(env: Env, log: seq<Row>, kind: Kind, page: seq<Row>)
    requires LogOk(log) && PageOk(log, kind, page)
    ensures Highest(SortBy(Before(env.locale), PutAll(FromRows(page))), Start(kind)) == Top(kind, page)
  {
    var start, top, ms := Start(kind), Top(kind, page), FromRows(page);
    PageIdsDiffer(log, kind, page);
    PutAllOfUnique(ms);
    SortSameElements(Before(env.locale), ms);
    var incoming := SortBy(Before(env.locale), ms);
    HighestIsMax(incoming, start);
    PageSeqs(log, kind, page);
    forall m | m in incoming ensures start < m.seqNo.value <= top && m.seqNo.Some? {
      var i :| 0 <= i < |ms| && ms[i] == m;
    }
    if page != [] {
      assert ms[|page| - 1] in incoming;
    }
  }

  lemma PageIdsDiffer(log: seq<Row>, kind: Kind, page: seq<Row>)
    requires LogOk(log) && PageOk(log, kind, page)
    ensures UniqueIds(FromRows(page))
  {
  }

  lemma PageSeqs(log: seq<Row>, kind: Kind, page: seq<Row>)
    requires LogOk(log) && PageOk(log, kind, page)
    ensures Start(kind) <= Top(kind, page)
    ensures forall i :: 0 <= i < |page| ==> Start(kind) < page[i].seqNo <= Top(kind, page)
  {
  }

  lemma IdsOfRows(rows: seq<Row>, k: nat)
    requires k < |rows|
    ensures rows[k].msg.id in Ids(FromRows(rows))
  {
  }

  lemma PageEntries(log: seq<Row>, kind: Kind, page: seq<Row>)
    requires LogOk(log) && PageOk(log, kind, page)
    ensures AllOf(m => EntryOk(log, m), FromRows(page))
  {
  }

  /** After a response the client holds the 50 rows up to the page's top. */
  lemma PageIsHeld(ids: set<string>, log: seq<Row>, kind: Kind, page: seq<Row>)
    requires LogOk(log) && PageOk(log, kind, page)
    requires kind.Catchup? ==> Holds(ids, log, kind.afterSeq)
    ensures Holds(ids + Ids(FromRows(page)), log, Top(kind, page))
  {
    var top := Top(kind, page);
    var from := From(kind, top);
    forall k | 0 <= k < |log| && top - 50 <= k < top ensures log[k].msg.id in ids + Ids(FromRows(page)) {
      if k >= from {
        assert page[k - from] == log[k];
        IdsOfRows(page, k - from);
      }
    }
  }

  /** Completing a response that was served soundly keeps the invariant and leads the watermark to its top. */
  lemma CompletedOk(env: Env, s: Session, kind: Kind, page: seq<Row>)
    requires Inv(env, s) && LogOk(Log(env, s)) && RequestOk(Ids(s.list), Log(env, s), Served(kind, page))
    ensures var s' := Completed(env, s, kind, FromRows(page));
            && Inv(env, s')
            && s'.server == s.server && s'.requests == s.requests
            && Ids(s'.list) == Ids(s.list) + Ids(FromRows(page))
            && s'.lastSeq == (if page == [] then s.lastSeq else Top(kind, page))
            && forall id :: id in Ids(s.list) && Settled(s.list, id) ==> Settled(s'.list, id)
  {
    var s', log := Completed(env, s, kind, FromRows(page)), Log(env, s);
    TopOfPage(env, log, kind, page);
    PageSeqs(log, kind, page);
    PageEntries(log, kind, page);
    StableEntries(log);
    LoadedContents(env.locale, m => EntryOk(log, m), s.list, FromRows(page));
    PageIsHeld(Ids(s.list), log, kind, page);
    assert page == [] ==> Ids(FromRows(page)) == {};
    InvGrows(env, s, s.(list := s'.list));
  }

  lemma CompleteStep(env: Env, s: Session, r: nat)
    requires Inv(env, s) && r in s.requests && s.requests[r].Served?
    ensures var s', q := Apply(env, s, Complete(r)), s.requests[r];
            && Inv(env, s')
            && Ids(s'.list) == Ids(s.list) + Ids(FromRows(q.page))
            && s'.lastSeq == (if q.page == [] then s.lastSeq else Top(q.kind, q.page))
            && forall id :: id in Ids(s.list) && Settled(s.list, id) ==> Settled(s'.list, id)
  {
    var rest := s.(requests := s.requests - {r});
    assert LogOk(Log(env, s)) && RequestOk(Ids(s.list), Log(env, s), s.requests[r]);
    InvGrows(env, s, rest);
    CompletedOk(env, rest, s.requests[r].kind, s.requests[r].page);
  }

  lemma EntryStep(env: Env, s: Session, m: ChatMessage)
    requires Inv(env, s) && m.dbId == 0 && m.seqNo.None?
    ensures var s' := s.(list := Upserted(env.locale, s.list, m));
            && Inv(env, s')
            && Ids(s'.list) == Ids(s.list) + {m.id}
            && forall id :: id in Ids(s.list) && Settled(s.list, id) ==> Settled(s'.list, id)
  {
    StableEntries(Log(env, s));
    UpsertedContents(env.locale, m => EntryOk(Log(env, s), m), s.list, m);
    InvGrows(env, s, s.(list := Upserted(env.locale, s.list, m)));
  }

  lemma FailedStep(env: Env, s: Session, id: string)
    requires Inv(env, s)
    ensures var s' := s.(list := MarkedFailed(s.list, id));
            && Inv(env, s')
            && Ids(s'.list) == Ids(s.list)
            && forall x :: x in Ids(s.list) && Settled(s.list, x) ==> Settled(s'.list, x)
  {
    var r := MarkedFailed(s.list, id);
    forall i | 0 <= i < |r|
      ensures r[i].id == s.list[i].id && EntryOk(Log(env, s), r[i]) && (r[i].pending ==> s.list[i].pending)
    {
      assert s.list[i] in s.list;
    }
    forall x ensures x in Ids(r) <==> x in Ids(s.list) {
      if x in Ids(r) {
        var i :| 0 <= i < |r| && r[i].id == x;
        assert s.list[i] in s.list;
      }
      if x in Ids(s.list) {
        var i :| 0 <= i < |s.list| && s.list[i].id == x;
        assert r[i] in r;
      }
    }
    forall x | Settled(s.list, x) ensures Settled(r, x) {
      forall m | m in r && m.id == x ensures !m.pending {
        var i :| 0 <= i < |r| && r[i] == m;
        assert s.list[i] in s.list;
      }
    }
    InvGrows(env, s, s.(list := r));
  }

  lemma Step(env: Env, s: Session, e: Event)
    requires Inv(env, s)
    ensures Inv(env, Apply(env, s, e))
    ensures Ids(Apply(env, s, e).list) == Ids(s.list) + Brings(env, s, e)
    ensures forall id :: id in Ids(s.list) && Settled(s.list, id) ==> Settled(Apply(env, s, e).list, id)
  {
    if Enabled(env, s, e) {
      match e
      case Server(step) => ServerStep(env, s, step);
      case Serve(r) => ServeStep(env, s, r);
      case Complete(r) => CompleteStep(env, s, r);
      case Echo(m) => EntryStep(env, s, m);
      case Send(m) => EntryStep(env, s, m);
      case SendFailed(id) => FailedStep(env, s, id);
      case _ =>
    }
  }

  /** The ids of the messages an event hands to the client. */
  ghost function Brings(env: Env, s: Session, e: Event): set<string> {
    if !Enabled(env, s, e) then {}
    else
      match e
      case Echo(m) => {m.id}
      case Send(m) => {m.id}
      case Complete(r) => Ids(FromRows(s.requests[r].page))
      case _ => {}
  }

  ghost function Brought(env: Env, events: seq<Event>): set<string> {
    if |events| == 0 then {}
    else
      var init := events[..|events| - 1];
      Brought(env, init) + Brings(env, Exec(env, init), events[|events| - 1])
  }

  lemma {:induction false} ReachableInv(env: Env, events: seq<Event>)
    ensures Inv(env, Exec(env, events))
    ensures Ids(Exec(env, events).list) == Brought(env, events)
  {
    if |events| > 0 {
      var init := events[..|events| - 1];
      ReachableInv(env, init);
      Step(env, Exec(env, init), events[|events| - 1]);
    } else {
      P.ReachableInv(env.hash, []);
    }
  }

  // ----- What holds over every run.

  /**
    However responses, saves, echoes and sends interleave, the client holds
    every committed message of the conversation whose number is among the 50 up
    to its watermark.
   */
  lemma WindowIsHeld(env: Env, events: seq<Event>, row: Row)
    requires var s := Exec(env, events);
             row in s.server.table && row.msg.conv == env.conv && s.lastSeq - 50 < row.seqNo <= s.lastSeq
    ensures exists m :: m in Exec(env, events).list && m.id == row.msg.id
  {
    ReachableInv(env, events);
    var s := Exec(env, events);
    RowsOfMembers(s.server.table, env.conv);
    var k :| 0 <= k < |Log(env, s)| && Log(env, s)[k] == row;
    assert LogOk(Log(env, s));
    assert row.msg.id in Ids(s.list);
  }

  /** The list has exactly one entry for every distinct id the run has handed to the client. */
  lemma OneEntryPerId(env: Env, events: seq<Event>)
    ensures UniqueIds(Exec(env, events).list)
    ensures Ids(Exec(env, events).list) == Brought(env, events)
  {
    ReachableInv(env, events);
  }

  /** No id ever disappears, and a message no longer pending never becomes pending again. */
  lemma {:induction false} EntriesStay(env: Env, events: seq<Event>, more: seq<Event>, id: string)
    requires id in Ids(Exec(env, events).list)
    ensures id in Ids(Exec(env, events + more).list)
    ensures Settled(Exec(env, events).list, id) ==> Settled(Exec(env, events + more).list, id)
    decreases |more|
  {
    if |more| == 0 {
      assert events + more == events;
    } else {
      var next := events + [more[0]];
      assert next[..|events|] == events;
      assert next + more[1..] == events + more;
      ReachableInv(env, events);
      Step(env, Exec(env, events), more[0]);
      EntriesStay(env, next, more[1..], id);
    }
  }

  // ----- Row ids are learnt and kept.

  ghost predicate HasRowId(list: seq<ChatMessage>, id: string, dbId: nat) {
    exists m :: m in list && m.id == id && m.dbId == dbId
  }

  /** Completing a response puts each of its rows into the list as it is stored, whatever was there under its id. */
  lemma ResponseStores(env: Env, s: Session, r: nat, row: Row)
    requires Inv(env, s) && r in s.requests && s.requests[r].Served? && row in s.requests[r].page
    ensures FromRow(row) in Apply(env, s, Complete(r)).list
  {
    var log, kind, page := Log(env, s), s.requests[r].kind, s.requests[r].page;
    var ms := FromRows(page);
    var k :| 0 <= k < |page| && page[k] == row;
    assert LogOk(log) && RequestOk(Ids(s.list), log, s.requests[r]) && ms[k] == FromRow(row);
    PageIdsDiffer(log, kind, page);
    PageRowsAreStored(log, kind, page, k);
    CompletedLoads(env, s, r);
    hide *;
    LastOfUnique(ms, FromRow(row));
    FromRowCarries(row, RowIdIn(s.list, FromRow(row).id));
    LoadedHoldsIff(env.locale, s.list, ms, FromRow(row));
  }

  lemma CompletedLoads(env: Env, s: Session, r: nat)
    requires r in s.requests && s.requests[r].Served? && s.requests[r].page != []
    ensures Apply(env, s, Complete(r)).list == Loaded(env.locale, s.list, FromRows(s.requests[r].page))
  {
  }

  lemma PageRowsAreStored(log: seq<Row>, kind: Kind, page: seq<Row>, k: nat)
    requires LogOk(log) && PageOk(log, kind, page) && k < |page|
    ensures page[k] in log && page[k].dbId > 0
  {
  }

  lemma FromRowCarries(row: Row, known: nat)
    requires row.dbId > 0
    ensures Carries(FromRow(row), FromRow(row), known)
  {
  }

  /** Two entries that know the row ids of one message know the same one. */
  lemma OneRowId(log: seq<Row>, a: ChatMessage, b: ChatMessage)
    requires LogOk(log) && EntryOk(log, a) && EntryOk(log, b) && Stored(a) && Stored(b) && a.id == b.id
    ensures a.dbId == b.dbId
  {
  }

  lemma RowIdOfMember(list: seq<ChatMessage>, m: ChatMessage)
    requires UniqueIds(list) && m in list
    ensures RowIdIn(list, m.id) == m.dbId && m.id in Ids(list)
  {
    var k :| 0 <= k < |list| && list[k] == m;
    RowIdOfEntry(list, k);
  }

  lemma UpsertKeepsRowId(locale: (string, string) -> int, list: seq<ChatMessage>, m: ChatMessage, x: ChatMessage)
    requires UniqueIds(list) && m in list && x.dbId == 0
    ensures HasRowId(Upserted(locale, list, x), m.id, m.dbId)
  {
    RowIdOfMember(list, m);
    var y := if x.id == m.id then Laid(m.dbId, x) else m;
    assert x.id == m.id ==> Carries(y, x, m.dbId);
    UpsertedHoldsIff(locale, list, x, y);
    hide Upserted, RowIdIn, UniqueIds;
    assert y in Upserted(locale, list, x);
  }

  lemma CompleteKeepsRowId(env: Env, s: Session, r: nat, m: ChatMessage)
    requires Inv(env, s) && r in s.requests && s.requests[r].Served? && m in s.list && Stored(m)
    ensures HasRowId(Apply(env, s, Complete(r)).list, m.id, m.dbId)
  {
    var log, page := Log(env, s), s.requests[r].page;
    assert LogOk(log) && EntryOk(log, m) && RequestOk(Ids(s.list), log, s.requests[r]);
    if k :| 0 <= k < |page| && page[k].msg.id == m.id {
      ResponseStores(env, s, r, page[k]);
      PageRowsAreStored(log, s.requests[r].kind, page, k);
      RowIsEntry(log, page[k]);
      OneRowId(log, m, FromRow(page[k]));
    } else {
      RestStays(env, s, r, m);
    }
  }

  lemma RowIsEntry(log: seq<Row>, row: Row)
    requires row in log && row.dbId > 0
    ensures EntryOk(log, FromRow(row))
  {
    var k :| 0 <= k < |log| && log[k] == row;
    assert log[k].dbId == FromRow(row).dbId && log[k].msg.id == FromRow(row).id;
  }

  lemma RestStays(env: Env, s: Session, r: nat, m: ChatMessage)
    requires r in s.requests && s.requests[r].Served? && UniqueIds(s.list) && m in s.list
    requires forall k :: 0 <= k < |s.requests[r].page| ==> s.requests[r].page[k].msg.id != m.id
    ensures m in Apply(env, s, Complete(r)).list
  {
    var ms := FromRows(s.requests[r].page);
    LastOfUnique(s.list, m);
    assert m.id !in Ids(ms);
    if ms != [] {
      CompletedLoads(env, s, r);
      hide *;
      LoadedHoldsIff(env.locale, s.list, ms, m);
    } else {
      EmptyPageKeeps(env, s, r, m);
    }
  }

  lemma EmptyPageKeeps(env: Env, s: Session, r: nat, m: ChatMessage)
    requires r in s.requests && s.requests[r].Served? && UniqueIds(s.list) && m in s.list
    requires FromRows(s.requests[r].page) == []
    ensures m in Apply(env, s, Complete(r)).list
  {
    LastOfUnique(s.list, m);
    LoadedHoldsIff(env.locale, s.list, [], m);
  }

  lemma FailureKeepsRowId(list: seq<ChatMessage>, id: string, m: ChatMessage)
    requires m in list
    ensures HasRowId(MarkedFailed(list, id), m.id, m.dbId)
  {
    var i :| 0 <= i < |list| && list[i] == m;
    assert MarkedFailed(list, id)[i] in MarkedFailed(list, id);
  }

  lemma StepKeepsRowId(env: Env, s: Session, e: Event, id: string, dbId: nat)
    requires Inv(env, s) && HasRowId(s.list, id, dbId) && dbId != 0
    ensures HasRowId(Apply(env, s, e).list, id, dbId)
  {
    var m :| m in s.list && m.id == id && m.dbId == dbId;
    if Enabled(env, s, e) {
      match e
      case Complete(r) => CompleteKeepsRowId(env, s, r, m);
      case Echo(x) => UpsertKeepsRowId(env.locale, s.list, m, x);
      case Send(x) => UpsertKeepsRowId(env.locale, s.list, m, x);
      case SendFailed(x) => FailureKeepsRowId(s.list, x, m);
      case _ =>
    }
  }

  /** A row id once learnt is kept. */
  lemma {:induction false} RowIdsStay(env: Env, events: seq<Event>, more: seq<Event>, id: string, dbId: nat)
    requires dbId != 0 && HasRowId(Exec(env, events).list, id, dbId)
    ensures HasRowId(Exec(env, events + more).list, id, dbId)
    decreases |more|
  {
    if |more| == 0 {
      assert events + more == events;
    } else {
      var next := events + [more[0]];
      assert next[..|events|] == events;
      assert next + more[1..] == events + more;
      ReachableInv(env, events);
      StepKeepsRowId(env, Exec(env, events), more[0], id, dbId);
      RowIdsStay(env, next, more[1..], id, dbId);
    }
  }

  /**
    Once a response with a row has completed the list has that row as it is stored,
    and in every later state an entry of its id with its row id.
   */
  lemma ResponseRowsStayStored(env: Env, events: seq<Event>, r: nat, row: Row, more: seq<Event>)
    requires var s := Exec(env, events);
             r in s.requests && s.requests[r].Served? && row in s.requests[r].page
    ensures ChatMessage(row.msg.id, row.dbId, row.msg.conv, Some(row.msg.createdAt), None, Some(row.seqNo), false,
                        false)
            in Exec(env, events + [Complete(r)]).list
    ensures HasRowId(Exec(env, events + [Complete(r)] + more).list, row.msg.id, row.dbId)
  {
    var s := Exec(env, events);
    ReachableInv(env, events);
    assert (events + [Complete(r)])[..|events|] == events;
    ResponseStores(env, s, r, row);
    assert LogOk(Log(env, s)) && RequestOk(Ids(s.list), Log(env, s), s.requests[r]);
    var k :| 0 <= k < |s.requests[r].page| && s.requests[r].page[k] == row;
    PageRowsAreStored(Log(env, s), s.requests[r].kind, s.requests[r].page, k);
    RowIdsStay(env, events + [Complete(r)], more, row.msg.id, row.dbId);
  }

  /**
    The comparison sorts what the client holds exactly when no unstored message
    straddles two stored ones: the other conditions hold in every reachable state.
   */
  lemma ReachableListsAreWellformed(env: Env, events: seq<Event>)
    requires TotalLocale(env.locale)
    ensures var list := Exec(env, events).list;
            Wellformed(list) && (StrictTotal(Before(env.locale), list) <==> NothingStraddled(env.locale, list))
  {
    ReachableInv(env, events);
    var s := Exec(env, events);
    assert LogOk(Log(env, s));
    hide Exec, StrictTotal, Wellformed, NothingStraddled, Before, LogOk;
    EntriesAreWellformed(Log(env, s), s.list);
    ComparatorIsOrderIff(env.locale, s.list);
  }

  lemma EntriesAreWellformed(log: seq<Row>, list: seq<ChatMessage>)
    requires LogOk(log) && UniqueIds(list) && AllOf(m => EntryOk(log, m), list)
    ensures Wellformed(list)
  {
    forall a, b | a in list && b in list && Stored(a) && a.dbId == b.dbId ensures a == b {
      assert EntryOk(log, a) && EntryOk(log, b);
      var i :| 0 <= i < |log| && log[i].dbId == a.dbId && log[i].msg.id == a.id;
      var j :| 0 <= j < |log| && log[j].dbId == b.dbId && log[j].msg.id == b.id;
      SameIdSame(list, a, b);
    }
    forall a | a in list && SeqOf(a) != 0 ensures Stored(a) {
      assert EntryOk(log, a);
    }
  }

  lemma StepKeepsOrder(env: Env, s: Session, e: Event)
    requires UniqueIds(s.list)
    requires StrictTotal(Before(env.locale), s.list) ==> Sorted(Before(env.locale), s.list)
    ensures var list := Apply(env, s, e).list;
            StrictTotal(Before(env.locale), list) ==> Sorted(Before(env.locale), list)
  {
    var next := Apply(env, s, e);
    if Enabled(env, s, e) {
      match e
      case Complete(r) =>
        var incoming := SortBy(Before(env.locale), PutAll(FromRows(s.requests[r].page)));
        SortedWhereOrdered(env.locale, OverlayAll(PutAll(s.list), incoming));
      case Echo(m) =>
        SortedUpsert(env.locale, s.list, m);
      case Send(m) =>
        SortedUpsert(env.locale, s.list, m);
      case SendFailed(id) =>
        if StrictTotal(Before(env.locale), next.list) {
          FailureKeepsOrder(env.locale, s.list, id);
        }
      case _ =>
    }
  }

  lemma SortedUpsert(locale: (string, string) -> int, list: seq<ChatMessage>, m: ChatMessage)
    ensures var r := Upserted(locale, list, m); StrictTotal(Before(locale), r) ==> Sorted(Before(locale), r)
  {
    var k := Find(list, m.id);
    SortedWhereOrdered(locale, if k < |list| then list[k := Overlay(list, m)] else list + [m]);
  }

  lemma {:induction false} ReachableOrder(env: Env, events: seq<Event>)
    ensures var list := Exec(env, events).list;
            StrictTotal(Before(env.locale), list) ==> Sorted(Before(env.locale), list)
  {
    if |events| > 0 {
      var before := events[..|events| - 1];
      ReachableOrder(env, before);
      OneEntryPerId(env, before);
      StepKeepsOrder(env, Exec(env, before), events[|events| - 1]);
    }
  }

  /**
    Whatever happened, a list in which nothing is straddled stands in order, so
    two clients that hold the same messages show the same list.
   */
  lemma SameMessagesSameList(env: Env, events: seq<Event>, others: seq<Event>)
    requires TotalLocale(env.locale) && NothingStraddled(env.locale, Exec(env, events).list)
    requires multiset(Exec(env, events).list) == multiset(Exec(env, others).list)
    ensures Sorted(Before(env.locale), Exec(env, events).list)
    ensures Exec(env, events).list == Exec(env, others).list
  {
    var list, other := Exec(env, events).list, Exec(env, others).list;
    ReachableListsAreWellformed(env, events);
    ReachableOrder(env, events);
    ReachableOrder(env, others);
    hide *;
    SortedIfOrdered(Before(env.locale), list, other);
  }

  lemma RowsAscend(log: seq<Row>, from: nat, to: nat)
    requires LogOk(log) && from <= to <= |log|
    ensures var ms := FromRows(log[from..to]);
            && (forall i, j :: 0 <= i < j < |ms| ==> ms[i].id != ms[j].id && ms[i].dbId < ms[j].dbId)
            && forall m :: m in ms ==> Stored(m)
  {
  }

  lemma LogRowsAreOrdered(locale: (string, string) -> int, log: seq<Row>, from: nat, to: nat)
    requires TotalLocale(locale) && LogOk(log) && from <= to <= |log|
    ensures var ms := FromRows(log[from..to]);
            UniqueIds(ms) && StrictTotal(Before(locale), ms) && Sorted(Before(locale), ms)
  {
    var ms := FromRows(log[from..to]);
    RowsAscend(log, from, to);
    StoredAscendingSorted(locale, ms);
    StoredOrAgreeingListsAreOrdered(locale, ms);
  }

  lemma StoredAscendingSorted(locale: (string, string) -> int, ms: seq<ChatMessage>)
    requires forall i, j :: 0 <= i < j < |ms| ==> ms[i].id != ms[j].id && ms[i].dbId < ms[j].dbId
    requires forall m :: m in ms ==> Stored(m)
    ensures Wellformed(ms) && Sorted(Before(locale), ms)
  {
  }

  /** Rows of one conversation are listed in sequence order: row ids ascend with sequence numbers. */
  lemma ServerRowsListInSequence(env: Env, schedule: seq<P.Step>, from: nat, to: nat)
    requires TotalLocale(env.locale) && from <= to <= |P.LogAfter(env.hash, schedule, env.conv)|
    ensures var rows := P.LogAfter(env.hash, schedule, env.conv)[from..to];
            Loaded(env.locale, [], FromRows(rows)) == FromRows(rows)
  {
    var log := P.LogAfter(env.hash, schedule, env.conv);
    P.EveryRunKeepsLogs(env.hash, schedule, env.conv);
    LogRowsAreOrdered(env.locale, log, from, to);
    LoadedIntoEmpty(env.locale, FromRows(log[from..to]));
  }

  lemma LoadedIntoEmpty(locale: (string, string) -> int, ms: seq<ChatMessage>)
    requires UniqueIds(ms) && StrictTotal(Before(locale), ms) && Sorted(Before(locale), ms)
    requires forall i :: 0 <= i < |ms| ==> !ms[i].pending && !ms[i].failed
    ensures Loaded(locale, [], ms) == ms
  {
    PutAllOfUnique(ms);
    SortOfSorted(Before(locale), ms, ms);
    OverlayIntoEmpty(ms);
  }

  lemma {:induction false} OverlayIntoEmpty(ms: seq<ChatMessage>)
    requires UniqueIds(ms) && forall i :: 0 <= i < |ms| ==> !ms[i].pending && !ms[i].failed
    ensures OverlayAll([], ms) == ms
  {
    if |ms| > 0 {
      var init, last := ms[..|ms| - 1], ms[|ms| - 1];
      OverlayIntoEmpty(init);
      assert Find(init, last.id) == |init|;
      assert Overlay(init, last) == last;
      assert ms == init + [last];
    }
  }

  // ----- The watermark.

  /** A response takes the watermark back exactly when its page is not empty and ends below it. */
  lemma WatermarkFallsIff(env: Env, events: seq<Event>, r: nat)
    requires var s := Exec(env, events); r in s.requests && s.requests[r].Served?
    ensures var s := Exec(env, events);
            var q := s.requests[r];
            Apply(env, s, Complete(r)).lastSeq < s.lastSeq <==> q.page != [] && q.page[|q.page| - 1].seqNo < s.lastSeq
  {
    ReachableInv(env, events);
    CompleteStep(env, Exec(env, events), r);
  }
}
