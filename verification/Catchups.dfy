/**
  Catch-ups among everything else that goes on: saves, messages sent and echoed,
  other requests (frontend/src/contexts/ChatContext.tsx:251-302). What one of them
  does to the watermark is settled when it is answered; completed one after the
  other, they bring the client to the end of a log that keeps growing.
 */
module Catchups {
  import opened MessageLog
  import opened FlatMaps
  import opened ChatStore
  import opened Paging
  import opened ChatSession
  import P = SaveProtocol

  // ----- Runs that go on from a state.

  function ExecFrom(env: Env, s: Session, events: seq<Event>): Session {
    if |events| == 0 then s else Apply(env, ExecFrom(env, s, events[..|events| - 1]), events[|events| - 1])
  }

  lemma {:induction false} FromThen(env: Env, s: Session, a: seq<Event>, b: seq<Event>)
    ensures ExecFrom(env, s, a + b) == ExecFrom(env, ExecFrom(env, s, a), b)
  {
    if |b| == 0 {
      assert a + b == a;
    } else {
      var init, last := b[..|b| - 1], b[|b| - 1];
      FromThen(env, s, a, init);
      assert (a + b)[..|a + b| - 1] == a + init && (a + b)[|a + b| - 1] == last;
    }
  }

  lemma OneEvent(env: Env, s: Session, e: Event)
    ensures ExecFrom(env, s, [e]) == Apply(env, s, e)
  {
    assert [e][..0] == [] && ExecFrom(env, s, []) == s;
  }

  lemma OneMore(env: Env, s: Session, events: seq<Event>, e: Event)
    ensures ExecFrom(env, s, events + [e]) == Apply(env, ExecFrom(env, s, events), e)
  {
    assert (events + [e])[..|events|] == events;
  }

  lemma {:induction false} ExecIsFromStart(env: Env, events: seq<Event>)
    ensures Exec(env, events) == ExecFrom(env, START, events)
  {
    if |events| > 0 {
      ExecIsFromStart(env, events[..|events| - 1]);
    }
  }

  lemma LogGrows(env: Env, s: Session, e: Event)
    ensures Log(env, s) <= Log(env, Apply(env, s, e))
  {
    if e.Server? {
      P.StepGrows(env.hash, s.server, e.step, env.conv);
    }
  }

  lemma {:induction false} FromInv(env: Env, s: Session, events: seq<Event>)
    requires Inv(env, s)
    ensures Inv(env, ExecFrom(env, s, events)) && Log(env, s) <= Log(env, ExecFrom(env, s, events))
    ensures Ids(s.list) <= Ids(ExecFrom(env, s, events).list)
  {
    if |events| > 0 {
      var before := ExecFrom(env, s, events[..|events| - 1]);
      FromInv(env, s, events[..|events| - 1]);
      Step(env, before, events[|events| - 1]);
      LogGrows(env, before, events[|events| - 1]);
    }
  }

  /** The one event that changes a request: its answer, and when it has one its completion. */
  function NextOf(q: Request, r: nat): Event {
    if q.Issued? then Serve(r) else Complete(r)
  }

  lemma {:induction false} RequestStays(env: Env, s: Session, events: seq<Event>, r: nat)
    requires r in s.requests && NextOf(s.requests[r], r) !in events
    ensures r in ExecFrom(env, s, events).requests && ExecFrom(env, s, events).requests[r] == s.requests[r]
  {
    if |events| > 0 {
      var init := events[..|events| - 1];
      assert forall e :: e in init ==> e in events;
      RequestStays(env, s, init, r);
      assert events[|events| - 1] in events;
    }
  }

  /** No response is completed. */
  predicate NoResponse(events: seq<Event>) {
    forall e :: e in events ==> !e.Complete?
  }

  lemma {:induction false} WatermarkStays(env: Env, s: Session, events: seq<Event>)
    requires NoResponse(events)
    ensures ExecFrom(env, s, events).lastSeq == s.lastSeq
  {
    if |events| > 0 {
      assert forall e :: e in events[..|events| - 1] ==> e in events;
      WatermarkStays(env, s, events[..|events| - 1]);
      assert events[|events| - 1] in events;
    }
  }

  // ----- One catch-up among other events.

  /** Issued from `s`, answered after `one`, completed after `two`. */
  function Asking(env: Env, s: Session, r: nat, one: seq<Event>): Session {
    ExecFrom(env, Apply(env, s, IssueCatchup(r)), one)
  }

  function Waiting(env: Env, s: Session, r: nat, one: seq<Event>, two: seq<Event>): Session {
    ExecFrom(env, Apply(env, Asking(env, s, r, one), Serve(r)), two)
  }

  lemma AskingKeepsRequest(env: Env, s: Session, r: nat, one: seq<Event>)
    requires Inv(env, s) && s.lastSeq > 0 && r !in s.requests && Serve(r) !in one
    ensures var t := Asking(env, s, r, one);
            && Inv(env, t) && r in t.requests && t.requests[r] == Issued(Catchup(s.lastSeq))
            && Log(env, s) <= Log(env, t)
  {
    var issued := Apply(env, s, IssueCatchup(r));
    Step(env, s, IssueCatchup(r));
    RequestStays(env, issued, one, r);
    FromInv(env, issued, one);
  }

  lemma WaitingKeepsPage(env: Env, s: Session, r: nat, one: seq<Event>, two: seq<Event>)
    requires Inv(env, s) && s.lastSeq > 0 && r !in s.requests && Serve(r) !in one && Complete(r) !in two
    ensures var t, u := Asking(env, s, r, one), Waiting(env, s, r, one, two);
            && Inv(env, u) && Log(env, t) <= Log(env, u)
            && r in u.requests
            && u.requests[r] == Served(Catchup(s.lastSeq), Answer(env, t.server.table, Catchup(s.lastSeq)))
  {
    AskingKeepsRequest(env, s, r, one);
    var t := Asking(env, s, r, one);
    var answered := Apply(env, t, Serve(r));
    Step(env, t, Serve(r));
    RequestStays(env, answered, two, r);
    FromInv(env, answered, two);
  }

  /** The client has the rows of the log behind position `from`, up to position `to`. */
  ghost predicate HasRows(env: Env, s: Session, from: int, to: int) {
    to <= |Log(env, s)| && forall k :: 0 <= k < to && from <= k ==> Log(env, s)[k].msg.id in Ids(s.list)
  }

  lemma HasRowsStays(env: Env, s: Session, t: Session, from: int, to: int)
    requires HasRows(env, s, from, to) && Log(env, s) <= Log(env, t) && Ids(s.list) <= Ids(t.list)
    ensures HasRows(env, t, from, to)
  {
  }

  /** A page served when the log was `log`, and completed in `u`. */
  lemma PageCompletes(env: Env, u: Session, r: nat, log: seq<Row>, after: nat, page: seq<Row>)
    requires Inv(env, u) && r in u.requests && u.requests[r] == Served(Catchup(after), page)
    requires LogOk(log) && log <= Log(env, u) && 1 <= after <= |log|
    requires PageOk(log, Catchup(after), page)
    requires Top(Catchup(after), page) == Min(|log|, after + PageSize(env.maxBatch))
    ensures var done, to := Apply(env, u, Complete(r)), Min(|log|, after + PageSize(env.maxBatch));
            && (|log| > after ==> done.lastSeq == to > after)
            && (|log| == after ==> done.lastSeq == u.lastSeq)
            && HasRows(env, done, after, to)
  {
    hide *;
    CompleteStep(env, u, r);
    PageSizeRange(env.maxBatch);
    TopTells(log, after, page, PageSize(env.maxBatch));
    CompleteKeepsLog(env, u, r);
    PageRowsAreIds(log, after, page);
    RowsOfPage(env, Apply(env, u, Complete(r)), log, after, page);
  }

  /** The page is empty exactly if there was nothing behind the cursor. */
  lemma TopTells(log: seq<Row>, after: nat, page: seq<Row>, size: nat)
    requires LogOk(log) && after <= |log| && PageOk(log, Catchup(after), page) && size >= 1
    requires Top(Catchup(after), page) == Min(|log|, after + size)
    ensures page == [] <==> |log| == after
    ensures |log| > after ==> Min(|log|, after + size) > after
  {
    PageSeqs(log, Catchup(after), page);
  }

  lemma CompleteKeepsLog(env: Env, s: Session, r: nat)
    ensures Log(env, Apply(env, s, Complete(r))) == Log(env, s)
  {
  }

  lemma PageRowsAreIds(log: seq<Row>, after: nat, page: seq<Row>)
    requires PageOk(log, Catchup(after), page)
    ensures Top(Catchup(after), page) <= |log|
    ensures forall k :: after <= k < Top(Catchup(after), page) ==> log[k].msg.id in Ids(FromRows(page))
  {
    forall k | after <= k < Top(Catchup(after), page) ensures log[k].msg.id in Ids(FromRows(page)) {
      assert page[k - after] == log[k];
      IdsOfRows(page, k - after);
    }
  }

  lemma RowsOfPage(env: Env, s: Session, log: seq<Row>, after: nat, page: seq<Row>)
    requires log <= Log(env, s) && Ids(FromRows(page)) <= Ids(s.list)
    requires var top := Top(Catchup(after), page);
             top <= |log| && forall k :: after <= k < top ==> log[k].msg.id in Ids(FromRows(page))
    ensures HasRows(env, s, after, Top(Catchup(after), page))
  {
  }

  /**
    A catch-up issued at any moment, whatever happens until it is answered and
    whatever until it completes, other responses included: if the log was longer
    than the watermark it was issued with when it was answered, completing it sets
    the watermark to a full page behind that, or to the end of the log as answered,
    which is strictly higher; otherwise it leaves the watermark alone. Every row up
    to that end of the page is then on the client.
   */
  lemma CatchupOutcome(env: Env, s: Session, r: nat, one: seq<Event>, two: seq<Event>)
    requires Inv(env, s) && s.lastSeq > 0 && r !in s.requests && Serve(r) !in one && Complete(r) !in two
    ensures var answered, u := |Log(env, Asking(env, s, r, one))|, Waiting(env, s, r, one, two);
            var done, to := Apply(env, u, Complete(r)), Min(answered, s.lastSeq + PageSize(env.maxBatch));
            && answered >= s.lastSeq
            && (answered > s.lastSeq ==> done.lastSeq == to > s.lastSeq)
            && (answered == s.lastSeq ==> done.lastSeq == u.lastSeq)
            && HasRows(env, done, s.lastSeq, to)
  {
    var t, u, kind := Asking(env, s, r, one), Waiting(env, s, r, one, two), Catchup(s.lastSeq);
    AskingKeepsRequest(env, s, r, one);
    WaitingKeepsPage(env, s, r, one, two);
    InvMeansLogOk(env, s);
    InvMeansLogOk(env, t);
    hide *;
    AnswerIsStretch(env, t.server.table, kind);
    PageCompletes(env, u, r, Log(env, t), s.lastSeq, Answer(env, t.server.table, kind));
  }

  lemma InvMeansLogOk(env: Env, s: Session)
    requires Inv(env, s)
    ensures LogOk(Log(env, s)) && s.lastSeq <= |Log(env, s)| && Log(env, s) == RowsOf(s.server.table, env.conv)
  {
  }

  /**
    With no other response in between, the watermark moves on by a full page or to
    the end of the log as answered: strictly, exactly if the log was longer by then.
    The client then has every row between the old and the new watermark.
   */
  lemma CatchupAdvances(env: Env, s: Session, r: nat, one: seq<Event>, two: seq<Event>)
    requires Inv(env, s) && s.lastSeq > 0 && r !in s.requests && Serve(r) !in one
    requires NoResponse(one) && NoResponse(two)
    ensures var answered := |Log(env, Asking(env, s, r, one))|;
            var done := Apply(env, Waiting(env, s, r, one, two), Complete(r));
            && done.lastSeq == Min(answered, s.lastSeq + PageSize(env.maxBatch))
            && (done.lastSeq > s.lastSeq <==> answered > s.lastSeq)
            && HasRows(env, done, s.lastSeq, done.lastSeq)
  {
    CatchupOutcome(env, s, r, one, two);
    PageSizeRange(env.maxBatch);
    var issued, t := Apply(env, s, IssueCatchup(r)), Asking(env, s, r, one);
    WatermarkStays(env, issued, one);
    WatermarkStays(env, Apply(env, t, Serve(r)), two);
  }

  // ----- Catch-ups one after the other.

  /** After `gap` a catch-up `r` is issued, after `one` answered, after `two` completed. */
  datatype Round = Round(gap: seq<Event>, r: nat, one: seq<Event>, two: seq<Event>)

  function AfterRound(env: Env, s: Session, x: Round): Session {
    Apply(env, Waiting(env, ExecFrom(env, s, x.gap), x.r, x.one, x.two), Complete(x.r))
  }

  function RoundEvents(x: Round): seq<Event> {
    x.gap + [IssueCatchup(x.r)] + x.one + [Serve(x.r)] + x.two + [Complete(x.r)]
  }

  lemma RoundIsARun(env: Env, s: Session, x: Round)
    ensures ExecFrom(env, s, RoundEvents(x)) == AfterRound(env, s, x)
  {
    var issue, serve, complete := [IssueCatchup(x.r)], [Serve(x.r)], [Complete(x.r)];
    FromThen(env, s, x.gap, issue);
    FromThen(env, s, x.gap + issue, x.one);
    FromThen(env, s, x.gap + issue + x.one, serve);
    FromThen(env, s, x.gap + issue + x.one + serve, x.two);
    FromThen(env, s, x.gap + issue + x.one + serve + x.two, complete);
    OneEvent(env, ExecFrom(env, s, x.gap), IssueCatchup(x.r));
    OneEvent(env, Asking(env, ExecFrom(env, s, x.gap), x.r, x.one), Serve(x.r));
    OneEvent(env, Waiting(env, ExecFrom(env, s, x.gap), x.r, x.one, x.two), Complete(x.r));
  }

  function AfterRounds(env: Env, s: Session, rounds: seq<Round>): Session {
    if |rounds| == 0 then s else AfterRound(env, AfterRounds(env, s, rounds[..|rounds| - 1]), rounds[|rounds| - 1])
  }

  /** The request number is free when it is used, and no other response completes; anything else may happen. */
  predicate Alone(env: Env, s: Session, x: Round) {
    && x.r !in ExecFrom(env, s, x.gap).requests && Serve(x.r) !in x.one
    && NoResponse(x.gap) && NoResponse(x.one) && NoResponse(x.two)
  }

  predicate AllAlone(env: Env, s: Session, rounds: seq<Round>) {
    |rounds| == 0 ||
    (AllAlone(env, s, rounds[..|rounds| - 1])
     && Alone(env, AfterRounds(env, s, rounds[..|rounds| - 1]), rounds[|rounds| - 1]))
  }

  lemma RoundAdvances(env: Env, s: Session, x: Round)
    requires Inv(env, s) && s.lastSeq > 0 && Alone(env, s, x)
    ensures var t := AfterRound(env, s, x);
            && Inv(env, t) && t.lastSeq > 0 && Log(env, s) <= Log(env, t)
            && Min(|Log(env, s)|, s.lastSeq + PageSize(env.maxBatch)) <= t.lastSeq
            && t.lastSeq <= Min(|Log(env, t)|, s.lastSeq + PageSize(env.maxBatch))
            && Ids(s.list) <= Ids(t.list) && HasRows(env, t, s.lastSeq, t.lastSeq)
  {
    var from := ExecFrom(env, s, x.gap);
    FromInv(env, s, x.gap);
    WatermarkStays(env, s, x.gap);
    FromInv(env, s, RoundEvents(x));
    RoundIsARun(env, s, x);
    AskingKeepsRequest(env, from, x.r, x.one);
    assert Complete(x.r) !in x.two;
    WaitingKeepsPage(env, from, x.r, x.one, x.two);
    LogGrows(env, Waiting(env, from, x.r, x.one, x.two), Complete(x.r));
    CatchupAdvances(env, from, x.r, x.one, x.two);
    PageSizeRange(env.maxBatch);
  }

  lemma HasRowsJoin(env: Env, s: Session, from: int, mid: int)
    requires HasRows(env, s, from, mid) && HasRows(env, s, mid, s.lastSeq)
    ensures HasRows(env, s, from, s.lastSeq)
  {
  }

  lemma MinAddsUp(end: nat, more: nat, end': nat, start: nat, n: nat, size: nat, mid: int, last: int)
    requires n > 0 && end <= more <= end' && size >= 1
    requires Min(end, start + (n - 1) * size) <= mid <= Min(more, start + (n - 1) * size)
    requires Min(more, mid + size) <= last <= Min(end', mid + size)
    ensures Min(end, start + n * size) <= last <= Min(end', start + n * size)
  {
    assert n * size == (n - 1) * size + size;
  }

  /**
    Catch-ups one after the other, with saves committing, messages sent and echoed,
    requests issued and answered at any moment in between: after n of them the
    watermark has come n full pages further, or at least to where the log ended
    when they began. It never passes the log, and the client has every row it has
    come past.
   */
  lemma {:induction false} CatchupsReachTheEnd(env: Env, s: Session, rounds: seq<Round>)
    requires Inv(env, s) && s.lastSeq > 0 && AllAlone(env, s, rounds)
    ensures var t, pages := AfterRounds(env, s, rounds), |rounds| * PageSize(env.maxBatch);
            && Inv(env, t) && t.lastSeq > 0 && Log(env, s) <= Log(env, t)
            && Min(|Log(env, s)|, s.lastSeq + pages) <= t.lastSeq <= Min(|Log(env, t)|, s.lastSeq + pages)
            && HasRows(env, t, s.lastSeq, t.lastSeq)
  {
    if |rounds| > 0 {
      var init, last := rounds[..|rounds| - 1], rounds[|rounds| - 1];
      var mid := AfterRounds(env, s, init);
      assert AllAlone(env, s, init) && Alone(env, mid, last);
      assert AfterRounds(env, s, rounds) == AfterRound(env, mid, last);
      hide *;
      CatchupsReachTheEnd(env, s, init);
      RoundAdvances(env, mid, last);
      HasRowsStays(env, mid, AfterRounds(env, s, rounds), s.lastSeq, mid.lastSeq);
      HasRowsJoin(env, AfterRounds(env, s, rounds), s.lastSeq, mid.lastSeq);
      PageSizeRange(env.maxBatch);
      MinAddsUp(|Log(env, s)|, |Log(env, mid)|, |Log(env, AfterRounds(env, s, rounds))|, s.lastSeq, |rounds|,
                PageSize(env.maxBatch), mid.lastSeq, AfterRounds(env, s, rounds).lastSeq);
    }
  }

  /** While the log does not grow, that is exact: they reach its end, a full page each. */
  lemma QuietCatchupsReachTheEnd(env: Env, s: Session, rounds: seq<Round>)
    requires Inv(env, s) && s.lastSeq > 0 && AllAlone(env, s, rounds)
    ensures var t := AfterRounds(env, s, rounds);
            |Log(env, t)| == |Log(env, s)| ==>
              t.lastSeq == Min(|Log(env, s)|, s.lastSeq + |rounds| * PageSize(env.maxBatch))
  {
    CatchupsReachTheEnd(env, s, rounds);
  }

  function Eventful(): Round -> seq<Event> {
    (x: Round) => RoundEvents(x)
  }

  lemma {:induction false} RoundsAreARun(env: Env, s: Session, rounds: seq<Round>)
    ensures ExecFrom(env, s, FlatMap(Eventful(), rounds)) == AfterRounds(env, s, rounds)
  {
    if |rounds| > 0 {
      var init, last := rounds[..|rounds| - 1], rounds[|rounds| - 1];
      RoundsAreARun(env, s, init);
      FromThen(env, s, FlatMap(Eventful(), init), RoundEvents(last));
      RoundIsARun(env, AfterRounds(env, s, init), last);
    }
  }

  /** The same of runs: catch-ups after any events at all. */
  lemma CatchupsOverRuns(env: Env, events: seq<Event>, rounds: seq<Round>)
    requires Exec(env, events).lastSeq > 0 && AllAlone(env, Exec(env, events), rounds)
    ensures var s, t := Exec(env, events), Exec(env, events + FlatMap(Eventful(), rounds));
            var pages := |rounds| * PageSize(env.maxBatch);
            && Min(|Log(env, s)|, s.lastSeq + pages) <= t.lastSeq <= Min(|Log(env, t)|, s.lastSeq + pages)
            && HasRows(env, t, s.lastSeq, t.lastSeq)
  {
    hide *;
    var more := FlatMap(Eventful(), rounds);
    ReachableInv(env, events);
    ExecIsFromStart(env, events);
    ExecIsFromStart(env, events + more);
    FromThen(env, START, events, more);
    RoundsAreARun(env, Exec(env, events), rounds);
    CatchupsReachTheEnd(env, Exec(env, events), rounds);
  }
}
