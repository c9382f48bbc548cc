/**
  `CreateWithNextSeq` run by any number of concurrent transactions
  (backend/internal/repository/message_repo.go:91-113).

  Each transaction goes through its statements one at a time: take the
  transaction-scoped advisory lock on the hash of the conversation, look for
  the message id, read the top sequence number, insert, commit. It may abort at
  any point. A statement sees the rows committed when it runs. Commit publishes
  the inserted row and gives the lock back in one step.

  A schedule is any sequence of steps at all; a step that cannot be taken (a
  busy lock, a statement out of order) changes nothing. So a statement about
  every schedule is one about every interleaving.
 */
module SaveProtocol {
  import opened MessageLog

  type TxId = nat

  datatype Pc =
    | Begun
    | Locked
    | Found                // the id is stored already: nothing to write
    | Absent
    | Numbered(n: nat)
    | Inserted(row: Row)   // written, visible to nobody else yet
    | Committed
    | Aborted

  datatype Tx = Tx(msg: Message, pc: Pc)

  datatype State = State(table: Table, nextDbId: nat, locks: map<int, TxId>, txs: map<TxId, Tx>)

  const INITIAL := State([], 1, map[], map[])

  datatype Step =
    | Begin(t: TxId, msg: Message)
    | Lock(t: TxId)
    | CheckExists(t: TxId)
    | ReadTop(t: TxId)
    | Insert(t: TxId)
    | Commit(t: TxId)
    | Abort(t: TxId)

  predicate Holding(pc: Pc) {
    pc.Locked? || pc.Found? || pc.Absent? || pc.Numbered? || pc.Inserted?
  }

  predicate Finished(pc: Pc) {
    pc.Committed? || pc.Aborted?
  }

  /** The unique constraint on (conversation_id, seq) lets the row in. */
  predicate UniqueSeq(table: Table, c: ConvId, n: nat) {
    forall i :: 0 <= i < |table| ==> !(table[i].msg.conv == c && table[i].seqNo == n)
  }

  predicate Enabled(hash: ConvId -> int, s: State, step: Step) {
    match step
    case Begin(t, _) => t !in s.txs
    case Lock(t) => t in s.txs && s.txs[t].pc.Begun? && hash(s.txs[t].msg.conv) !in s.locks
    case CheckExists(t) => t in s.txs && s.txs[t].pc.Locked?
    case ReadTop(t) => t in s.txs && s.txs[t].pc.Absent?
    case Insert(t) =>
      t in s.txs && s.txs[t].pc.Numbered? && UniqueSeq(s.table, s.txs[t].msg.conv, s.txs[t].pc.n)
    case Commit(t) => t in s.txs && (s.txs[t].pc.Found? || s.txs[t].pc.Inserted?)
    case Abort(t) => t in s.txs && !Finished(s.txs[t].pc)
  }

  function At(s: State, t: TxId, pc: Pc): map<TxId, Tx>
    requires t in s.txs
  {
    s.txs[t := s.txs[t].(pc := pc)]
  }

  /** The advisory locks without those of transaction `t`. */
  function Released(locks: map<int, TxId>, t: TxId): map<int, TxId> {
    map k | k in locks && locks[k] != t :: locks[k]
  }

  function Apply(hash: ConvId -> int, s: State, step: Step): State {
    if !Enabled(hash, s, step) then s
    else
      match step
      case Begin(t, m) => s.(txs := s.txs[t := Tx(m, Begun)])
      case Lock(t) => s.(locks := s.locks[hash(s.txs[t].msg.conv) := t], txs := At(s, t, Locked))
      case CheckExists(t) =>
        var m := s.txs[t].msg;
        s.(txs := At(s, t, if HasId(RowsOf(s.table, m.conv), m.id) then Found else Absent))
      case ReadTop(t) => s.(txs := At(s, t, Numbered(NextSeq(s.table, s.txs[t].msg.conv))))
      case Insert(t) =>
        s.(nextDbId := s.nextDbId + 1,
           txs := At(s, t, Inserted(Row(s.nextDbId, s.txs[t].msg, s.txs[t].pc.n))))
      case Commit(t) =>
        s.(table := if s.txs[t].pc.Inserted? then s.table + [s.txs[t].pc.row] else s.table,
           locks := Released(s.locks, t),
           txs := At(s, t, Committed))
      case Abort(t) => s.(locks := Released(s.locks, t), txs := At(s, t, Aborted))
  }

  function Exec(hash: ConvId -> int, schedule: seq<Step>): State {
    if |schedule| == 0 then INITIAL
    else Apply(hash, Exec(hash, schedule[..|schedule| - 1]), schedule[|schedule| - 1])
  }

  /** The committed log of a conversation after a schedule. */
  function LogAfter(hash: ConvId -> int, schedule: seq<Step>, c: ConvId): seq<Row> {
    RowsOf(Exec(hash, schedule).table, c)
  }

  /** The messages whose saves committed, in commit order: new and redelivered alike. */
  function Commits(hash: ConvId -> int, schedule: seq<Step>): seq<Message> {
    if |schedule| == 0 then []
    else
      var init, step := schedule[..|schedule| - 1], schedule[|schedule| - 1];
      var s := Exec(hash, init);
      Commits(hash, init) + if step.Commit? && Enabled(hash, s, step) then [s.txs[step.t].msg] else []
  }

  // ----- The invariant.

  ghost predicate LocksOk(hash: ConvId -> int, s: State) {
    && (forall t :: t in s.txs && Holding(s.txs[t].pc) ==>
          hash(s.txs[t].msg.conv) in s.locks && s.locks[hash(s.txs[t].msg.conv)] == t)
    && (forall k :: k in s.locks ==>
          s.locks[k] in s.txs && Holding(s.txs[s.locks[k]].pc) && hash(s.txs[s.locks[k]].msg.conv) == k)
  }

  /** What a transaction has read is still true: nobody else can have changed its log. */
  ghost predicate TxOk(log: seq<Row>, nextDbId: nat, tx: Tx) {
    match tx.pc
    case Found => HasId(log, tx.msg.id)
    case Absent => !HasId(log, tx.msg.id)
    case Numbered(n) => !HasId(log, tx.msg.id) && n == |log| + 1
    case Inserted(row) =>
      && !HasId(log, tx.msg.id)
      && row.msg == tx.msg && row.seqNo == |log| + 1
      && 0 < row.dbId < nextDbId
      && forall r :: r in log ==> r.dbId < row.dbId
    case _ => true
  }

  ghost predicate Inv(hash: ConvId -> int, s: State) {
    && RepositoryOk(s.table, s.nextDbId)
    && LocksOk(hash, s)
    && forall t :: t in s.txs ==> TxOk(RowsOf(s.table, s.txs[t].msg.conv), s.nextDbId, s.txs[t])
  }

  lemma LocksStep(hash: ConvId -> int, s: State, step: Step)
    requires LocksOk(hash, s)
    ensures LocksOk(hash, Apply(hash, s, step))
  {
  }

  /** Publishing a row of `t` leaves what any other transaction has read true. */
  lemma CommitKeepsTx(hash: ConvId -> int, s: State, t: TxId, u: TxId)
    requires LocksOk(hash, s)
    requires t in s.txs && s.txs[t].pc.Inserted? && s.txs[t].pc.row.msg == s.txs[t].msg
    requires u in s.txs && u != t && TxOk(RowsOf(s.table, s.txs[u].msg.conv), s.nextDbId, s.txs[u])
    ensures TxOk(RowsOf(s.table + [s.txs[t].pc.row], s.txs[u].msg.conv), s.nextDbId, s.txs[u])
  {
  }

  lemma CommitKeepsRepository(hash: ConvId -> int, s: State, t: TxId)
    requires RepositoryOk(s.table, s.nextDbId)
    requires t in s.txs && s.txs[t].pc.Inserted?
    requires TxOk(RowsOf(s.table, s.txs[t].msg.conv), s.nextDbId, s.txs[t])
    ensures RepositoryOk(s.table + [s.txs[t].pc.row], s.nextDbId)
  {
    AppendKeepsLogOk(RowsOf(s.table, s.txs[t].msg.conv), s.txs[t].pc.row);
    AppendKeepsTableOk(s.table, s.txs[t].pc.row);
  }

  /** A step other than a publishing commit leaves the table alone and keeps what transactions have read true. */
  lemma TxStep(hash: ConvId -> int, s: State, step: Step, u: TxId)
    requires forall r :: r in s.table ==> r.dbId < s.nextDbId
    requires 0 < s.nextDbId
    requires !(step.Commit? && step.t in s.txs && s.txs[step.t].pc.Inserted?)
    requires u in Apply(hash, s, step).txs
    requires u in s.txs ==> TxOk(RowsOf(s.table, s.txs[u].msg.conv), s.nextDbId, s.txs[u])
    requires u in s.txs ==> LogOk(RowsOf(s.table, s.txs[u].msg.conv))
    ensures var s' := Apply(hash, s, step);
            s'.table == s.table && TxOk(RowsOf(s.table, s'.txs[u].msg.conv), s'.nextDbId, s'.txs[u])
  {
    if u in s.txs {
      RowsOfMembers(s.table, s.txs[u].msg.conv);
      if step.ReadTop? && step.t == u {
        NextSeqCounts(s.table, s.txs[u].msg.conv);
      }
    }
  }

  lemma InvStep(hash: ConvId -> int, s: State, step: Step)
    requires Inv(hash, s)
    ensures Inv(hash, Apply(hash, s, step))
  {
    LocksStep(hash, s, step);
    var s' := Apply(hash, s, step);
    if step.Commit? && step.t in s.txs && s.txs[step.t].pc.Inserted? {
      assert TxOk(RowsOf(s.table, s.txs[step.t].msg.conv), s.nextDbId, s.txs[step.t]);
      CommitKeepsRepository(hash, s, step.t);
      forall u | u in s'.txs ensures TxOk(RowsOf(s'.table, s'.txs[u].msg.conv), s'.nextDbId, s'.txs[u]) {
        if u != step.t {
          CommitKeepsTx(hash, s, step.t, u);
        }
      }
    } else {
      forall u | u in s'.txs ensures TxOk(RowsOf(s'.table, s'.txs[u].msg.conv), s'.nextDbId, s'.txs[u]) {
        TxStep(hash, s, step, u);
      }
      assert s'.table == s.table;
    }
  }

  lemma {:induction false} ReachableInv(hash: ConvId -> int, schedule: seq<Step>)
    ensures Inv(hash, Exec(hash, schedule))
  {
    if |schedule| > 0 {
      ReachableInv(hash, schedule[..|schedule| - 1]);
      InvStep(hash, Exec(hash, schedule[..|schedule| - 1]), schedule[|schedule| - 1]);
    }
  }

  // ----- Safety over every run.

  /**
    After any interleaving, whatever the lock hash, each conversation's rows are
    numbered 1..n in commit order, carry distinct message ids, and have row ids
    that ascend with the sequence numbers.
   */
  lemma EveryRunKeepsLogs(hash: ConvId -> int, schedule: seq<Step>, c: ConvId)
    ensures LogOk(LogAfter(hash, schedule, c))
  {
    ReachableInv(hash, schedule);
  }

  /**
    In every reachable state a transaction past the lock is alone on its
    conversation, and on every conversation whose hash collides with it.
   */
  lemma MutualExclusion(hash: ConvId -> int, schedule: seq<Step>, t: TxId, u: TxId)
    requires var txs := Exec(hash, schedule).txs;
             && t in txs && u in txs && Holding(txs[t].pc) && Holding(txs[u].pc)
             && hash(txs[t].msg.conv) == hash(txs[u].msg.conv)
    ensures t == u
  {
    ReachableInv(hash, schedule);
  }

  /** Wherever a committed row stands in the table, all smaller numbers of its conversation are committed too. */
  lemma NoGapIsVisible(hash: ConvId -> int, schedule: seq<Step>, r: Row, k: nat)
    requires r in Exec(hash, schedule).table && 1 <= k <= r.seqNo
    ensures exists q :: q in Exec(hash, schedule).table && q.msg.conv == r.msg.conv && q.seqNo == k
  {
    EveryRunKeepsLogs(hash, schedule, r.msg.conv);
    var log := RowsOf(Exec(hash, schedule).table, r.msg.conv);
    RowsOfMembers(Exec(hash, schedule).table, r.msg.conv);
    assert r in log;
    assert log[k - 1] in log;
  }

  /** The unique constraint never fires: a transaction that has its number can always insert. */
  lemma ConstraintNeverFires(hash: ConvId -> int, schedule: seq<Step>, t: TxId)
    requires var s := Exec(hash, schedule); t in s.txs && s.txs[t].pc.Numbered?
    ensures Enabled(hash, Exec(hash, schedule), Insert(t))
  {
    var s := Exec(hash, schedule);
    var c, log := s.txs[t].msg.conv, RowsOf(s.table, s.txs[t].msg.conv);
    assert TxOk(log, s.nextDbId, s.txs[t]) && LogOk(log) by {
      ReachableInv(hash, schedule);
    }
    RowsOfMembers(s.table, c);
    forall i | 0 <= i < |s.table| && s.table[i].msg.conv == c ensures s.table[i].seqNo != s.txs[t].pc.n {
      assert s.table[i] in log;
    }
  }

  /** One transaction takes one lock, so some unfinished transaction can always move on without aborting. */
  lemma NoDeadlock(hash: ConvId -> int, schedule: seq<Step>, t: TxId)
    requires var s := Exec(hash, schedule); t in s.txs && !Finished(s.txs[t].pc)
    ensures exists step :: Enabled(hash, Exec(hash, schedule), step) && !step.Begin? && !step.Abort?
  {
    ReachableInv(hash, schedule);
    var s := Exec(hash, schedule);
    var h := hash(s.txs[t].msg.conv);
    var u := if s.txs[t].pc.Begun? && h in s.locks then s.locks[h] else t;
    var step := match s.txs[u].pc
      case Begun => Lock(u)
      case Locked => CheckExists(u)
      case Absent => ReadTop(u)
      case Numbered(_) => Insert(u)
      case _ => Commit(u);
    if s.txs[u].pc.Numbered? {
      ConstraintNeverFires(hash, schedule, u);
    }
    assert Enabled(hash, s, step);
  }

  lemma StepGrows(hash: ConvId -> int, s: State, step: Step, c: ConvId)
    ensures RowsOf(s.table, c) <= RowsOf(Apply(hash, s, step).table, c)
  {
  }

  lemma PrefixTrans<T>(a: seq<T>, b: seq<T>, c: seq<T>)
    requires a <= b <= c
    ensures a <= c
  {
  }

  lemma RunGrowsByStep(hash: ConvId -> int, schedule: seq<Step>, step: Step, c: ConvId)
    ensures LogAfter(hash, schedule, c) <= LogAfter(hash, schedule + [step], c)
  {
  }

  /** Committed logs only grow at the end. */
  lemma {:induction false} LogsOnlyGrow(hash: ConvId -> int, schedule: seq<Step>, more: seq<Step>, c: ConvId)
    ensures LogAfter(hash, schedule, c) <= LogAfter(hash, schedule + more, c)
    decreases |more|
  {
    if |more| == 0 {
      assert schedule + more == schedule;
    } else {
      var next := schedule + [more[0]];
      assert next + more[1..] == schedule + more;
      RunGrowsByStep(hash, schedule, more[0], c);
      LogsOnlyGrow(hash, next, more[1..], c);
      PrefixTrans(LogAfter(hash, schedule, c), LogAfter(hash, next, c), LogAfter(hash, schedule + more, c));
    }
  }

  // ----- Refinement to the sequential ledger.

  lemma MessagesAppend(rows: seq<Row>, r: Row)
    ensures Messages(rows + [r]) == Messages(rows) + [r.msg]
  {
  }

  lemma CommitRefines(hash: ConvId -> int, s: State, t: TxId, c: ConvId)
    requires Enabled(hash, s, Commit(t))
    requires TxOk(RowsOf(s.table, s.txs[t].msg.conv), s.nextDbId, s.txs[t])
    ensures var m := s.txs[t].msg;
            Messages(RowsOf(Apply(hash, s, Commit(t)).table, c))
              == if m.conv == c then AppendIfAbsent(Messages(RowsOf(s.table, c)), m) else Messages(RowsOf(s.table, c))
  {
    var m, log := s.txs[t].msg, RowsOf(s.table, s.txs[t].msg.conv);
    MessagesKnown(log, m.id);
    if s.txs[t].pc.Inserted? {
      RowsOfAppend(s.table, s.txs[t].pc.row, c);
      MessagesAppend(log, s.txs[t].pc.row);
    }
  }

  /**
    Every concurrent run leaves each log as if the committed saves had been done
    one after another, each appending its message unless its id was there.
   */
  lemma {:induction false} RunRefinesLedger(hash: ConvId -> int, schedule: seq<Step>, c: ConvId)
    ensures Messages(LogAfter(hash, schedule, c)) == Ledger(Commits(hash, schedule), c)
  {
    if |schedule| > 0 {
      var init, step := schedule[..|schedule| - 1], schedule[|schedule| - 1];
      var s, history := Exec(hash, init), Commits(hash, init);
      RunRefinesLedger(hash, init, c);
      if step.Commit? && Enabled(hash, s, step) {
        assert TxOk(RowsOf(s.table, s.txs[step.t].msg.conv), s.nextDbId, s.txs[step.t]) by {
          ReachableInv(hash, init);
        }
        CommitRefines(hash, s, step.t, c);
        assert (history + [s.txs[step.t].msg])[..|history|] == history;
      } else {
        assert Apply(hash, s, step).table == s.table;
        assert Commits(hash, schedule) == history;
      }
    }
  }

  /**
    At-least-once in, exactly-once out: an id is in a conversation's log exactly
    when some save of it has committed, and then at one position only.
   */
  lemma ExactlyOnce(hash: ConvId -> int, schedule: seq<Step>, c: ConvId, id: MsgId)
    ensures HasId(LogAfter(hash, schedule, c), id) <==> Delivered(Commits(hash, schedule), c, id)
    ensures var log := LogAfter(hash, schedule, c);
            forall i, j :: 0 <= i < j < |log| ==> !(log[i].msg.id == id && log[j].msg.id == id)
  {
    RunRefinesLedger(hash, schedule, c);
    LedgerIsExactlyOnce(Commits(hash, schedule), c);
    MessagesKnown(LogAfter(hash, schedule, c), id);
    EveryRunKeepsLogs(hash, schedule, c);
  }

  // ----- One save with nobody else about.

  function RunFrom(hash: ConvId -> int, s: State, steps: seq<Step>): State {
    if |steps| == 0 then s else Apply(hash, RunFrom(hash, s, steps[..|steps| - 1]), steps[|steps| - 1])
  }

  function SaveSteps(t: TxId, m: Message): seq<Step> {
    [Begin(t, m), Lock(t), CheckExists(t), ReadTop(t), Insert(t), Commit(t)]
  }

  lemma NextIsUnique(table: Table, c: ConvId)
    ensures UniqueSeq(table, c, NextSeq(table, c))
  {
    RowsOfMembers(table, c);
    forall i | 0 <= i < |table| && table[i].msg.conv == c ensures table[i].seqNo != NextSeq(table, c) {
      assert table[i] in RowsOf(table, c);
    }
  }

  /** The six states a save goes through, one step each. */
  lemma SaveStepsRun(hash: ConvId -> int, s: State, t: TxId, m: Message)
    ensures var s1 := Apply(hash, s, Begin(t, m));
            var s2 := Apply(hash, s1, Lock(t));
            var s3 := Apply(hash, s2, CheckExists(t));
            var s4 := Apply(hash, s3, ReadTop(t));
            var s5 := Apply(hash, s4, Insert(t));
            RunFrom(hash, s, SaveSteps(t, m)) == Apply(hash, s5, Commit(t))
  {
    var steps := SaveSteps(t, m);
    assert steps[..1] == [Begin(t, m)] && steps[..1][..0] == [];
    assert steps[..2][..1] == steps[..1] && steps[..3][..2] == steps[..2] && steps[..4][..3] == steps[..3];
    assert steps[..5][..4] == steps[..4];
    var s1 := RunFrom(hash, s, steps[..1]);
    var s2 := RunFrom(hash, s, steps[..2]);
    var s3 := RunFrom(hash, s, steps[..3]);
    var s4 := RunFrom(hash, s, steps[..4]);
    var s5 := RunFrom(hash, s, steps[..5]);
    assert RunFrom(hash, s, []) == s;
    assert s1 == Apply(hash, s, Begin(t, m));
    hide Apply;
    assert s2 == Apply(hash, s1, Lock(t)) && s3 == Apply(hash, s2, CheckExists(t));
    assert s4 == Apply(hash, s3, ReadTop(t)) && s5 == Apply(hash, s4, Insert(t));
  }

  /** A save of a new id with no lock taken appends its row and gives its lock back. */
  lemma SaveAppends(hash: ConvId -> int, s: State, t: TxId, m: Message)
    requires t !in s.txs && s.locks == map[] && !HasId(RowsOf(s.table, m.conv), m.id)
    ensures var done := RunFrom(hash, s, SaveSteps(t, m));
            && done.table == s.table + [Row(s.nextDbId, m, NextSeq(s.table, m.conv))]
            && done.nextDbId == s.nextDbId + 1 && done.locks == map[] && done.txs.Keys == s.txs.Keys + {t}
  {
    SaveStepsRun(hash, s, t, m);
    NextIsUnique(s.table, m.conv);
    var s1 := Apply(hash, s, Begin(t, m));
    var s2 := Apply(hash, s1, Lock(t));
    var s3 := Apply(hash, s2, CheckExists(t));
    var s4 := Apply(hash, s3, ReadTop(t));
    var s5 := Apply(hash, s4, Insert(t));
    assert s4.txs[t] == Tx(m, Numbered(NextSeq(s.table, m.conv)));
    assert s5.txs[t] == Tx(m, Inserted(Row(s.nextDbId, m, NextSeq(s.table, m.conv))));
    assert Released(s5.locks, t) == map[];
  }

  lemma ExecNext(hash: ConvId -> int, schedule: seq<Step>, step: Step)
    ensures Exec(hash, schedule + [step]) == Apply(hash, Exec(hash, schedule), step)
    ensures Commits(hash, schedule + [step])
            == Commits(hash, schedule) + if step.Commit? && Enabled(hash, Exec(hash, schedule), step)
                                         then [Exec(hash, schedule).txs[step.t].msg] else []
  {
    assert (schedule + [step])[..|schedule|] == schedule;
  }

  /** After its first five statements a save that found its lock free can commit. */
  lemma SaveReachesCommit(hash: ConvId -> int, s: State, t: TxId, m: Message)
    requires t !in s.txs && hash(m.conv) !in s.locks
    ensures var s3 := Apply(hash, Apply(hash, Apply(hash, s, Begin(t, m)), Lock(t)), CheckExists(t));
            var s5 := Apply(hash, Apply(hash, s3, ReadTop(t)), Insert(t));
            t in s5.txs && s5.txs[t].msg == m && Enabled(hash, s5, Commit(t))
  {
    NextIsUnique(s.table, m.conv);
    var s1 := Apply(hash, s, Begin(t, m));
    var s2 := Apply(hash, s1, Lock(t));
    var s3 := Apply(hash, s2, CheckExists(t));
    var s4 := Apply(hash, s3, ReadTop(t));
    assert s3.txs[t].pc.Found? || s4.txs[t] == Tx(m, Numbered(NextSeq(s.table, m.conv)));
  }

  /**
    After any schedule, the statements of a save one after the other take effect if
    the lock is free: the message is the next one committed, and the log has it
    appended if it was absent.
   */
  lemma SaveCompletes(hash: ConvId -> int, schedule: seq<Step>, t: TxId, m: Message)
    requires t !in Exec(hash, schedule).txs && hash(m.conv) !in Exec(hash, schedule).locks
    ensures Commits(hash, schedule + SaveSteps(t, m)) == Commits(hash, schedule) + [m]
    ensures Messages(LogAfter(hash, schedule + SaveSteps(t, m), m.conv))
            == AppendIfAbsent(Messages(LogAfter(hash, schedule, m.conv)), m)
  {
    hide Exec, Commits, Apply, Enabled, Ledger, LogAfter;
    var a := schedule + [Begin(t, m)];
    var b := a + [Lock(t)];
    var c := b + [CheckExists(t)];
    var d := c + [ReadTop(t)];
    var e := d + [Insert(t)];
    assert e + [Commit(t)] == schedule + SaveSteps(t, m);
    SaveReachesCommit(hash, Exec(hash, schedule), t, m);
    ExecNext(hash, schedule, Begin(t, m));
    ExecNext(hash, a, Lock(t));
    ExecNext(hash, b, CheckExists(t));
    ExecNext(hash, c, ReadTop(t));
    ExecNext(hash, d, Insert(t));
    ExecNext(hash, e, Commit(t));
    RunRefinesLedger(hash, schedule, m.conv);
    RunRefinesLedger(hash, schedule + SaveSteps(t, m), m.conv);
    LedgerNext(Commits(hash, schedule), m);
  }

  lemma LedgerNext(history: seq<Message>, m: Message)
    ensures Ledger(history + [m], m.conv) == AppendIfAbsent(Ledger(history, m.conv), m)
  {
    assert (history + [m])[..|history|] == history;
  }
}
