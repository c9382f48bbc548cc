/**
  The `messages` table and what one save does to it
  (backend/internal/repository/message_repo.go).

  The table is kept in commit order. The log of a conversation is its rows in
  that order; `LogOk` is what clients rely on.
 */
module MessageLog {

  type ConvId = string
  type MsgId = string

  datatype Option<+T> = None | Some(value: T)

  /** A message ready to be stored: `buildMessageModel` has fixed its id. */
  datatype Message = Message(conv: ConvId, id: MsgId, body: string, createdAt: int)

  /** A stored row. `dbId` is drawn from the table's BIGSERIAL sequence. */
  datatype Row = Row(dbId: nat, msg: Message, seqNo: nat)

  type Table = seq<Row>

  function RowsOf(table: Table, c: ConvId): seq<Row> {
    if |table| == 0 then []
    else
      var rest := RowsOf(table[..|table| - 1], c);
      var last := table[|table| - 1];
      if last.msg.conv == c then rest + [last] else rest
  }

  lemma {:induction false} RowsOfMembers(table: Table, c: ConvId)
    ensures forall r :: r in RowsOf(table, c) <==> r in table && r.msg.conv == c
  {
    if |table| > 0 {
      RowsOfMembers(table[..|table| - 1], c);
      assert table == table[..|table| - 1] + [table[|table| - 1]];
    }
  }

  lemma RowsOfAppend(table: Table, r: Row, c: ConvId)
    ensures RowsOf(table + [r], c) == RowsOf(table, c) + if r.msg.conv == c then [r] else []
  {
  }

  predicate HasId(rows: seq<Row>, id: MsgId) {
    exists i :: 0 <= i < |rows| && rows[i].msg.id == id
  }

  /** Sequence numbers 1..n in commit order, message ids pairwise distinct, row ids ascending. */
  ghost predicate LogOk(log: seq<Row>) {
    && (forall i :: 0 <= i < |log| ==> log[i].seqNo == i + 1)
    && (forall i, j :: 0 <= i < j < |log| ==> log[i].msg.id != log[j].msg.id)
    && (forall i, j :: 0 <= i < j < |log| ==> log[i].dbId < log[j].dbId)
    && (forall i :: 0 <= i < |log| ==> 0 < log[i].dbId)
  }

  ghost predicate TableOk(table: Table) {
    forall c :: LogOk(RowsOf(table, c))
  }

  /** The greatest `seq` among rows, 0 for none. */
  function MaxSeq(rows: seq<Row>): (m: nat)
    ensures forall r :: r in rows ==> r.seqNo <= m
    ensures rows != [] ==> exists r :: r in rows && r.seqNo == m
  {
    if |rows| == 0 then 0
    else
      var m := MaxSeq(rows[1..]);
      assert rows == [rows[0]] + rows[1..];
      if rows[0].seqNo >= m then rows[0].seqNo else m
  }

  /** `GetNextSeq`: one past the top row's number, 1 for an empty conversation. */
  function NextSeq(table: Table, c: ConvId): nat {
    var rows := RowsOf(table, c);
    if rows == [] then 1 else MaxSeq(rows) + 1
  }

  lemma NextSeqCounts(table: Table, c: ConvId)
    requires LogOk(RowsOf(table, c))
    ensures NextSeq(table, c) == |RowsOf(table, c)| + 1
  {
    var rows := RowsOf(table, c);
    if rows != [] {
      assert rows[|rows| - 1] in rows;
    }
  }

  // ----- The sequential reference: an append-if-absent ledger.

  predicate Known(ledger: seq<Message>, id: MsgId) {
    exists i :: 0 <= i < |ledger| && ledger[i].id == id
  }

  function AppendIfAbsent(ledger: seq<Message>, m: Message): seq<Message> {
    if Known(ledger, m.id) then ledger else ledger + [m]
  }

  /** What conversation `c` holds after the messages of `history`, one save after another. */
  function Ledger(history: seq<Message>, c: ConvId): seq<Message> {
    if |history| == 0 then []
    else
      var prev := Ledger(history[..|history| - 1], c);
      var m := history[|history| - 1];
      if m.conv == c then AppendIfAbsent(prev, m) else prev
  }

  function Messages(rows: seq<Row>): (ms: seq<Message>)
    ensures |ms| == |rows|
    ensures forall i :: 0 <= i < |rows| ==> ms[i] == rows[i].msg
  {
    if |rows| == 0 then [] else Messages(rows[..|rows| - 1]) + [rows[|rows| - 1].msg]
  }

  lemma MessagesKnown(rows: seq<Row>, id: MsgId)
    ensures Known(Messages(rows), id) <==> HasId(rows, id)
  {
  }

  ghost predicate Delivered(history: seq<Message>, c: ConvId, id: MsgId) {
    exists i :: 0 <= i < |history| && history[i].conv == c && history[i].id == id
  }

  /** The ledger of a conversation knows exactly the ids delivered to it, each once. */
  lemma {:induction false} LedgerIsExactlyOnce(history: seq<Message>, c: ConvId)
    ensures forall id :: Known(Ledger(history, c), id) <==> Delivered(history, c, id)
    ensures forall i, j :: 0 <= i < j < |Ledger(history, c)| ==> Ledger(history, c)[i].id != Ledger(history, c)[j].id
  {
    if |history| > 0 {
      var init, m := history[..|history| - 1], history[|history| - 1];
      LedgerIsExactlyOnce(init, c);
      var prev, now := Ledger(init, c), Ledger(history, c);
      forall id ensures Known(now, id) <==> Delivered(history, c, id) {
        if Known(prev, id) {
          var i :| 0 <= i < |prev| && prev[i].id == id;
          assert now[i].id == id;
        }
        if Delivered(init, c, id) {
          var i :| 0 <= i < |init| && init[i].conv == c && init[i].id == id;
          assert history[i] == init[i];
        }
        if m.conv == c && m.id == id && !Known(prev, id) {
          assert now[|now| - 1].id == id;
        }
        if Delivered(history, c, id) {
          var i :| 0 <= i < |history| && history[i].conv == c && history[i].id == id;
          if i < |init| {
            assert init[i] == history[i];
          }
        }
      }
    }
  }

  /** Redelivering a message, wherever in the history, leaves every ledger as it would be without. */
  lemma {:induction false} RedeliveryIsInvisible(before: seq<Message>, m: Message, after: seq<Message>, c: ConvId)
    requires Delivered(before, m.conv, m.id)
    ensures Ledger(before + [m] + after, c) == Ledger(before + after, c)
  {
    if |after| == 0 {
      assert before + [m] + after == before + [m] && before + after == before;
      assert (before + [m])[..|before|] == before;
      LedgerIsExactlyOnce(before, m.conv);
    } else {
      var init := after[..|after| - 1];
      RedeliveryIsInvisible(before, m, init, c);
      assert (before + [m] + after)[..|before| + |after|] == before + [m] + init;
      assert (before + after)[..|before| + |after| - 1] == before + init;
    }
  }

  // ----- Where the id of a stored message comes from.

  /** `buildMessageModel`: a payload id that does not parse is replaced by a newly drawn one. */
  function StoredId(parse: string -> Option<MsgId>, rawId: string, spare: MsgId): MsgId {
    match parse(rawId)
    case Some(id) => id
    case None => spare
  }

  /**
    A second delivery of the same payload changes the ledger exactly when the
    payload's id does not parse: deduplication works on the parsed id alone.
   */
  lemma RedeliveryDedupIff(parse: string -> Option<MsgId>, history: seq<Message>, rawId: string,
                           c: ConvId, body: string, at: int, spare1: MsgId, spare2: MsgId)
    requires spare1 != spare2 && !Delivered(history, c, spare2)
    ensures var first := Message(c, StoredId(parse, rawId, spare1), body, at);
            var again := Message(c, StoredId(parse, rawId, spare2), body, at);
            Ledger(history + [first] + [again], c) == Ledger(history + [first], c) <==> parse(rawId).Some?
  {
    var first := Message(c, StoredId(parse, rawId, spare1), body, at);
    var again := Message(c, StoredId(parse, rawId, spare2), body, at);
    var once := history + [first];
    assert (once + [again])[..|once|] == once;
    assert once[|history|] == first;
    LedgerIsExactlyOnce(once, c);
  }

  ghost predicate RepositoryOk(table: Table, nextDbId: nat) {
    && TableOk(table)
    && 0 < nextDbId
    && forall r :: r in table ==> r.dbId < nextDbId
  }

  // ----- The repository object, for one save at a time.

  class MessageRepository {
    var rows: Table
    var nextDbId: nat

    ghost predicate Valid()
      reads this
    {
      RepositoryOk(rows, nextDbId)
    }

    constructor ()
      ensures Valid() && rows == []
    {
      rows, nextDbId := [], 1;
    }

    method ExistsByConversationAndMessageID(c: ConvId, id: MsgId) returns (exists_: bool)
      ensures exists_ <==> HasId(RowsOf(rows, c), id)
    {
      var found := RowsOf(rows, c);
      exists_ := false;
      var i := 0;
      while i < |found|
        invariant 0 <= i <= |found|
        invariant exists_ <==> exists k :: 0 <= k < i && found[k].msg.id == id
      {
        exists_ := exists_ || found[i].msg.id == id;
        i := i + 1;
      }
    }

    /**
      One committed save: the conversation's log gains the message at the next
      position unless its id is already there; every other log is untouched.
     */
    method CreateWithNextSeq(msg: Message)
      requires Valid()
      modifies this
      ensures Valid()
      ensures Messages(RowsOf(rows, msg.conv)) == AppendIfAbsent(Messages(RowsOf(old(rows), msg.conv)), msg)
      ensures RowsOf(old(rows), msg.conv) <= RowsOf(rows, msg.conv)
      ensures forall c :: c != msg.conv ==> RowsOf(rows, c) == RowsOf(old(rows), c)
    {
      SaveOutcome(rows, nextDbId, msg);
      var found := ExistsByConversationAndMessageID(msg.conv, msg.id);
      if !found {
        rows := rows + [Row(nextDbId, msg, NextSeq(rows, msg.conv))];
        nextDbId := nextDbId + 1;
      }
    }
  }

  /** A row whose id is new, whose number is next and whose row id is the largest extends the log. */
  lemma AppendKeepsLogOk(log: seq<Row>, r: Row)
    requires LogOk(log) && !HasId(log, r.msg.id)
    requires r.seqNo == |log| + 1
    requires 0 < r.dbId && forall x :: x in log ==> x.dbId < r.dbId
    ensures LogOk(log + [r])
  {
  }

  lemma AppendKeepsTableOk(table: Table, r: Row)
    requires TableOk(table)
    requires LogOk(RowsOf(table, r.msg.conv) + [r])
    ensures TableOk(table + [r])
  {
  }

  /** Storing an absent message under the next number extends its log by it and touches no other. */
  lemma SaveExtends(table: Table, r: Row)
    requires TableOk(table)
    requires !HasId(RowsOf(table, r.msg.conv), r.msg.id)
    requires r.seqNo == NextSeq(table, r.msg.conv)
    requires 0 < r.dbId && forall x :: x in table ==> x.dbId < r.dbId
    ensures TableOk(table + [r])
    ensures Messages(RowsOf(table + [r], r.msg.conv)) == AppendIfAbsent(Messages(RowsOf(table, r.msg.conv)), r.msg)
    ensures RowsOf(table, r.msg.conv) <= RowsOf(table + [r], r.msg.conv)
    ensures forall c :: c != r.msg.conv ==> RowsOf(table + [r], c) == RowsOf(table, c)
  {
    var log := RowsOf(table, r.msg.conv);
    NextSeqCounts(table, r.msg.conv);
    RowsOfMembers(table, r.msg.conv);
    AppendKeepsLogOk(log, r);
    AppendKeepsTableOk(table, r);
    MessagesKnown(log, r.msg.id);
    RowsOfAppend(table, r, r.msg.conv);
    assert (log + [r])[..|log|] == log;
    forall c | c != r.msg.conv ensures RowsOf(table + [r], c) == RowsOf(table, c) {
      RowsOfAppend(table, r, c);
    }
  }

  lemma SaveOutcome(table: Table, nextDbId: nat, m: Message)
    requires RepositoryOk(table, nextDbId)
    ensures var found := HasId(RowsOf(table, m.conv), m.id);
            var after := if found then table else table + [Row(nextDbId, m, NextSeq(table, m.conv))];
            && RepositoryOk(after, if found then nextDbId else nextDbId + 1)
            && Messages(RowsOf(after, m.conv)) == AppendIfAbsent(Messages(RowsOf(table, m.conv)), m)
            && RowsOf(table, m.conv) <= RowsOf(after, m.conv)
            && forall c :: c != m.conv ==> RowsOf(after, c) == RowsOf(table, c)
  {
    if HasId(RowsOf(table, m.conv), m.id) {
      MessagesKnown(RowsOf(table, m.conv), m.id);
    } else {
      SaveExtends(table, Row(nextDbId, m, NextSeq(table, m.conv)));
    }
  }
}
