/**
  Runs of the session that end badly: a late response that takes the watermark
  back, and a list on which the comparison goes in a circle
  (frontend/src/contexts/ChatContext.tsx:211-249, frontend/src/lib/chat.ts:389-421).
 */
module Mishaps {
  import opened MessageLog
  import opened Sorting
  import opened MessageOrder
  import opened ChatStore
  import opened Paging
  import opened ChatSession
  import opened Catchups
  import P = SaveProtocol

  // ----- Failures that runs lead to.

  function ServerEvents(steps: seq<P.Step>): (events: seq<Event>)
    ensures |events| == |steps| && forall i :: 0 <= i < |steps| ==> events[i] == Server(steps[i])
  {
    seq(|steps|, i requires 0 <= i < |steps| => Server(steps[i]))
  }

  lemma {:induction false} ServerRuns(env: Env, s: Session, steps: seq<P.Step>)
    ensures ExecFrom(env, s, ServerEvents(steps)) == s.(server := P.RunFrom(env.hash, s.server, steps))
  {
    if |steps| > 0 {
      var init := steps[..|steps| - 1];
      ServerRuns(env, s, init);
      assert ServerEvents(steps)[..|steps| - 1] == ServerEvents(init);
    }
  }

  /** A refresh issued and answered. */
  function Answered(env: Env, s: Session, r: nat): Session {
    Apply(env, Apply(env, s, IssueRefresh(r)), Serve(r))
  }

  lemma CompletingSets(env: Env, s: Session, r: nat, log: seq<Row>, page: seq<Row>)
    requires Inv(env, s) && r in s.requests && s.requests[r] == Served(Refresh, page)
    requires page != [] && Top(Refresh, page) == |log|
    ensures Apply(env, s, Complete(r)).lastSeq == |log|
    ensures forall q :: q in s.requests && q != r ==>
              q in Apply(env, s, Complete(r)).requests && Apply(env, s, Complete(r)).requests[q] == s.requests[q]
    ensures Inv(env, Apply(env, s, Complete(r)))
  {
    CompleteStep(env, s, r);
  }

  /**
    A refresh answered before some saves and completed after a refresh answered
    behind them: the second sets the watermark to the end of the log, the first
    takes it back to where the log ended when it was answered.
   */
  lemma LateRefresh(env: Env, s: Session, r: nat, between: seq<Event>, q: nat)
    requires Inv(env, s) && Log(env, s) != [] && r !in s.requests && r != q && Complete(r) !in between
    requires q !in ExecFrom(env, Answered(env, s, r), between).requests
    ensures var u := ExecFrom(env, Answered(env, s, r), between);
            var v := Apply(env, Answered(env, u, q), Complete(q));
            v.lastSeq == |Log(env, u)| && Apply(env, v, Complete(r)).lastSeq == |Log(env, s)| <= |Log(env, u)|
  {
    var a := Answered(env, s, r);
    RefreshAnswered(env, s, r);
    RequestStays(env, a, between, r);
    FromInv(env, a, between);
    var u := ExecFrom(env, a, between);
    assert Log(env, a) == Log(env, s) && Log(env, u) != [];
    RefreshAnswered(env, u, q);
    var b := Answered(env, u, q);
    hide *;
    CompletingSets(env, b, q, Log(env, u), b.requests[q].page);
    CompletingSets(env, Apply(env, b, Complete(q)), r, Log(env, s), a.requests[r].page);
  }

  lemma RefreshAnswered(env: Env, s: Session, r: nat)
    requires Inv(env, s) && r !in s.requests
    ensures var a := Answered(env, s, r);
            && Inv(env, a) && a.server == s.server
            && a.requests == s.requests[r := Served(Refresh, Answer(env, s.server.table, Refresh))]
            && (Log(env, s) != [] ==> Answer(env, s.server.table, Refresh) != [])
            && Top(Refresh, Answer(env, s.server.table, Refresh)) == |Log(env, s)|
  {
    hide *;
    Step(env, s, IssueRefresh(r));
    Step(env, Apply(env, s, IssueRefresh(r)), Serve(r));
    InvMeansLogOk(env, s);
    AnswerIsStretch(env, s.server.table, Refresh);
    AnsweredIs(env, s, r);
    NoPageNoTop();
  }

  lemma AnsweredIs(env: Env, s: Session, r: nat)
    requires r !in s.requests
    ensures Answered(env, s, r) == Apply(env, Apply(env, s, IssueRefresh(r)), Serve(r))
            == s.(requests := s.requests[r := Served(Refresh, Answer(env, s.server.table, Refresh))])
  {
    var requests := s.requests[r := Issued(Refresh)];
    assert Apply(env, s, IssueRefresh(r)) == s.(requests := requests);
    hide Answer;
    assert requests[r := Served(Refresh, Answer(env, s.server.table, Refresh))]
        == s.requests[r := Served(Refresh, Answer(env, s.server.table, Refresh))];
  }

  lemma NoPageNoTop()
    ensures Top(Refresh, []) == 0
  {
  }

  function First(env: Env): Message { Message(env.conv, "a", "", 10) }

  function Second(env: Env): Message { Message(env.conv, "b", "", 5) }

  lemma LogOfTwo(env: Env, x: Row, y: Row)
    requires x.msg.conv == env.conv && y.msg.conv == env.conv
    ensures RowsOf([], env.conv) == [] && RowsOf([x], env.conv) == [x] && RowsOf([x, y], env.conv) == [x, y]
  {
    RowsOfAppend([], x, env.conv);
    RowsOfAppend([x], y, env.conv);
    assert [] + [x] == [x] && [x] + [y] == [x, y];
  }

  lemma FirstSave(env: Env)
    ensures var one := P.RunFrom(env.hash, P.INITIAL, P.SaveSteps(0, First(env)));
            one.table == [Row(1, First(env), 1)] && one.nextDbId == 2 && one.locks == map[] && one.txs.Keys == {0}
  {
    var row := Row(1, First(env), 1);
    LogOfTwo(env, row, row);
    assert NextSeq([], env.conv) == 1 && [] + [row] == [row] && {} + {0} == {0};
    hide P.RunFrom, P.SaveSteps;
    P.SaveAppends(env.hash, P.INITIAL, 0, First(env));
  }

  /** Two saves one after the other, the later one with the earlier creation time. */
  lemma TwoSaves(env: Env)
    ensures var one := P.RunFrom(env.hash, P.INITIAL, P.SaveSteps(0, First(env)));
            var two := P.RunFrom(env.hash, one, P.SaveSteps(1, Second(env)));
            && one.table == [Row(1, First(env), 1)]
            && two.table == [Row(1, First(env), 1), Row(2, Second(env), 2)]
  {
    hide P.RunFrom, P.SaveSteps;
    var one, row := P.RunFrom(env.hash, P.INITIAL, P.SaveSteps(0, First(env))), Row(1, First(env), 1);
    FirstSave(env);
    LogOfTwo(env, row, row);
    assert !HasId([row], "b") && NextSeq([row], env.conv) == 2;
    P.SaveAppends(env.hash, one, 1, Second(env));
  }

  /** A save, a refresh answered, another save, another refresh answered and completed. */
  function LateRun(env: Env): seq<Event> {
    ServerEvents(P.SaveSteps(0, First(env))) + [IssueRefresh(0)] + [Serve(0)]
    + ServerEvents(P.SaveSteps(1, Second(env))) + [IssueRefresh(1)] + [Serve(1)] + [Complete(1)]
  }

  /** The watermark of that run is 2. Completing the first refresh takes it back to 1. */
  lemma WatermarkFallsInARun(env: Env)
    ensures Exec(env, LateRun(env)).lastSeq == 2
    ensures Exec(env, LateRun(env) + [Complete(0)]).lastSeq == 1
  {
    var save, between := ServerEvents(P.SaveSteps(0, First(env))), ServerEvents(P.SaveSteps(1, Second(env)));
    var s := ExecFrom(env, START, save);
    var a := Answered(env, s, 0);
    var u := ExecFrom(env, a, between);
    var v := Apply(env, Answered(env, u, 1), Complete(1));
    LateRunIs(env);
    TwoSaves(env);
    LogOfTwo(env, Row(1, First(env), 1), Row(2, Second(env), 2));
    ServerRuns(env, START, P.SaveSteps(0, First(env)));
    ServerRuns(env, a, P.SaveSteps(1, Second(env)));
    ReachableInv(env, []);
    FromInv(env, START, save);
    LateRefresh(env, s, 0, between, 1);
  }

  lemma LateRunIs(env: Env)
    ensures var s := ExecFrom(env, START, ServerEvents(P.SaveSteps(0, First(env))));
            var a := Answered(env, s, 0);
            var u := ExecFrom(env, a, ServerEvents(P.SaveSteps(1, Second(env))));
            var v := Apply(env, Answered(env, u, 1), Complete(1));
            && Exec(env, LateRun(env)) == v
            && Exec(env, LateRun(env) + [Complete(0)]) == Apply(env, v, Complete(0))
  {
    var save, between := ServerEvents(P.SaveSteps(0, First(env))), ServerEvents(P.SaveSteps(1, Second(env)));
    ExecIsFromStart(env, LateRun(env));
    ExecIsFromStart(env, LateRun(env) + [Complete(0)]);
    hide ExecFrom, Exec, Apply, ServerEvents, P.SaveSteps;
    OneMore(env, START, save, IssueRefresh(0));
    OneMore(env, START, save + [IssueRefresh(0)], Serve(0));
    FromThen(env, START, save + [IssueRefresh(0)] + [Serve(0)], between);
    var events := save + [IssueRefresh(0)] + [Serve(0)] + between;
    OneMore(env, START, events, IssueRefresh(1));
    OneMore(env, START, events + [IssueRefresh(1)], Serve(1));
    OneMore(env, START, events + [IssueRefresh(1)] + [Serve(1)], Complete(1));
    OneMore(env, START, LateRun(env), Complete(0));
  }

  // ----- A list that goes in a circle.

  function Unsent(env: Env): ChatMessage {
    ChatMessage("u", 0, env.conv, Some(7), None, None, true, false)
  }

  /** Two saves, a refresh, and a message sent whose time falls between theirs. */
  function CircleRun(env: Env): seq<Event> {
    ServerEvents(P.SaveSteps(0, First(env))) + ServerEvents(P.SaveSteps(1, Second(env)))
    + [IssueRefresh(0)] + [Serve(0)] + [Complete(0)] + [Send(Unsent(env))]
  }

  lemma CircleRunIs(env: Env)
    ensures var s := ExecFrom(env, START, ServerEvents(P.SaveSteps(0, First(env))));
            var t := ExecFrom(env, s, ServerEvents(P.SaveSteps(1, Second(env))));
            Exec(env, CircleRun(env)) == Apply(env, Apply(env, Answered(env, t, 0), Complete(0)), Send(Unsent(env)))
  {
    var one, two := ServerEvents(P.SaveSteps(0, First(env))), ServerEvents(P.SaveSteps(1, Second(env)));
    ExecIsFromStart(env, CircleRun(env));
    hide ExecFrom, Exec, Apply, ServerEvents, P.SaveSteps;
    FromThen(env, START, one, two);
    OneMore(env, START, one + two, IssueRefresh(0));
    OneMore(env, START, one + two + [IssueRefresh(0)], Serve(0));
    OneMore(env, START, one + two + [IssueRefresh(0)] + [Serve(0)], Complete(0));
    OneMore(env, START, one + two + [IssueRefresh(0)] + [Serve(0)] + [Complete(0)], Send(Unsent(env)));
  }

  lemma CompletingLoads(env: Env, s: Session, r: nat, page: seq<Row>)
    requires r in s.requests && s.requests[r] == Served(Refresh, page)
    ensures Apply(env, s, Complete(r)).list == Loaded(env.locale, s.list, FromRows(page))
  {
  }

  lemma SmallLogIsThePage(env: Env, table: Table)
    requires LogOk(RowsOf(table, env.conv)) && |RowsOf(table, env.conv)| <= 50
    ensures Answer(env, table, Refresh) == RowsOf(table, env.conv)
  {
    var log := RowsOf(table, env.conv);
    BackwardPageIsNewest(table, env.conv, 50, 0, 0);
    assert Newest(log, 50, 0) == log[0..|log|] == log;
  }

  lemma LogLoads(env: Env, log: seq<Row>)
    requires TotalLocale(env.locale) && LogOk(log)
    ensures Loaded(env.locale, [], FromRows(log)) == FromRows(log)
  {
    assert log[0..|log|] == log;
    LogRowsAreOrdered(env.locale, log, 0, |log|);
    hide *;
    LoadedIntoEmpty(env.locale, FromRows(log));
  }

  /** A refresh of a small log fills an empty list with it. */
  lemma RefreshFillsList(env: Env, s: Session)
    requires TotalLocale(env.locale) && Inv(env, s) && s.list == [] && s.requests == map[] && |Log(env, s)| <= 50
    ensures Apply(env, Answered(env, s, 0), Complete(0)).list == FromRows(Log(env, s))
  {
    assert LogOk(Log(env, s));
    SmallLogIsThePage(env, s.server.table);
    var page := Answer(env, s.server.table, Refresh);
    var a := Answered(env, s, 0);
    assert a.list == [] && 0 in a.requests && a.requests[0] == Served(Refresh, page);
    hide Inv, Apply, Loaded, LogOk, Answered;
    CompletingLoads(env, a, 0, page);
    LogLoads(env, Log(env, s));
  }

  /**
    The list of that run holds three messages each of which comes before the next,
    round and round, so the comparison does not say how to show them.
   */
  lemma ListGoesInACircle(env: Env)
    requires TotalLocale(env.locale)
    ensures var list := Exec(env, CircleRun(env)).list;
            var a, b, u := FromRow(Row(1, First(env), 1)), FromRow(Row(2, Second(env), 2)), Unsent(env);
            && multiset(list) == multiset{a, b, u}
            && Before(env.locale)(a, b) && Before(env.locale)(b, u) && Before(env.locale)(u, a)
            && !StrictTotal(Before(env.locale), list)
  {
    var one := ServerEvents(P.SaveSteps(0, First(env)));
    var s := ExecFrom(env, START, one);
    var t := ExecFrom(env, s, ServerEvents(P.SaveSteps(1, Second(env))));
    var x, y := Row(1, First(env), 1), Row(2, Second(env), 2);
    CircleRunIs(env);
    TwoSaves(env);
    LogOfTwo(env, x, y);
    ServerRuns(env, START, P.SaveSteps(0, First(env)));
    ServerRuns(env, s, P.SaveSteps(1, Second(env)));
    ReachableInv(env, []);
    FromInv(env, START, one);
    FromInv(env, s, ServerEvents(P.SaveSteps(1, Second(env))));
    RefreshFillsList(env, t);
    SendAdds(env, Apply(env, Answered(env, t, 0), Complete(0)), x, y);
    CircleOf(env, x, y);
  }

  lemma SendAdds(env: Env, s: Session, x: Row, y: Row)
    requires s.list == FromRows([x, y]) && x.msg.id != "u" && y.msg.id != "u"
    ensures Apply(env, s, Send(Unsent(env))).list == Upserted(env.locale, FromRows([x, y]), Unsent(env))
  {
    hide Upserted;
  }

  lemma CircleIsNoOrder<T(!new)>(less: (T, T) -> bool, list: seq<T>, a: T, b: T, u: T)
    requires a in list && b in list && u in list && less(a, b) && less(b, u) && less(u, a)
    ensures !StrictTotal(less, list)
  {
  }

  lemma UpsertedHolds(locale: (string, string) -> int, a: ChatMessage, b: ChatMessage, u: ChatMessage)
    requires a.id != u.id && b.id != u.id
    ensures multiset(Upserted(locale, [a, b], u)) == multiset{a, b, u}
  {
    assert Find([a, b], u.id) == 2 && [a, b] + [u] == [a, b, u];
    hide *;
    SortKeeps(Before(locale), [a, b, u]);
    UpsertedNew(locale, [a, b], u);
  }

  lemma UpsertedNew(locale: (string, string) -> int, list: seq<ChatMessage>, u: ChatMessage)
    requires Find(list, u.id) == |list|
    ensures Upserted(locale, list, u) == SortBy(Before(locale), list + [u])
  {
  }

  lemma CircleOf(env: Env, x: Row, y: Row)
    requires x == Row(1, First(env), 1) && y == Row(2, Second(env), 2)
    ensures var list := Upserted(env.locale, FromRows([x, y]), Unsent(env));
            var a, b, u := FromRow(x), FromRow(y), Unsent(env);
            && multiset(list) == multiset{a, b, u}
            && Before(env.locale)(a, b) && Before(env.locale)(b, u) && Before(env.locale)(u, a)
            && !StrictTotal(Before(env.locale), list)
  {
    var a, b, u := FromRow(x), FromRow(y), Unsent(env);
    StraddledListIsCyclic(env.locale, env.conv);
    assert FromRows([x, y]) == [a, b];
    hide *;
    UpsertedHolds(env.locale, a, b, u);
    var list := Upserted(env.locale, [a, b], u);
    assert a in multiset(list) && b in multiset(list) && u in multiset(list);
    CircleIsNoOrder(Before(env.locale), list, a, b, u);
  }
}
