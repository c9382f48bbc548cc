/**
  The iOS client's stored conversation previews
  (clawchat-ios/clawchat/SQLiteTest.swift:116-154, 208-382, 617-645): the latest
  message shown for a conversation and its unread count. Names, avatars and the
  other descriptive fields are not part of this model.
 */
module Preview {
  import opened MessageLog
  import opened FlatMaps

  const INT64_MIN: int := -0x8000_0000_0000_0000

  type Int64 = x: int | INT64_MIN <= x <= 0x7FFF_FFFF_FFFF_FFFF witness 0

  datatype Snippet = Snippet(content: string, timestamp: Option<Int64>)

  datatype Conversation = Conversation(id: string, lastMessage: Option<Snippet>, unreadCount: Option<int>)

  datatype Message = Message(
    conversationId: string, senderId: string, content: string, timestamp: Option<Int64>, createdAt: Option<Int64>)

  type Table = map<string, Conversation>

  function Stamp(s: Option<Snippet>): Int64 {
    if s.Some? && s.value.timestamp.Some? then s.value.timestamp.value else INT64_MIN
  }

  function OrElse(t: Option<Int64>, other: Int64): Int64 {
    if t.Some? then t.value else other
  }

  /** The time of a message is its own, else that of its creation, else zero. */
  function PreviewSnippet(m: Message): Snippet {
    Snippet(m.content, Some(OrElse(m.timestamp, OrElse(m.createdAt, 0))))
  }

  function Newer(current: Option<Snippet>, offered: Option<Snippet>): Option<Snippet> {
    if Stamp(offered) >= Stamp(current) then offered else current
  }

  function MergeUnreadCount(local: Option<int>, remote: Option<int>): int {
    if remote.Some? then (if local == Some(0) then 0 else remote.value)
    else if local.Some? then local.value
    else 0
  }

  function Settled(c: Conversation): Conversation {
    if c.unreadCount.None? then c.(unreadCount := Some(0)) else c
  }

  function Existing(t: Table, id: string): Conversation {
    if id in t then t[id] else Conversation(id, None, Some(0))
  }

  /** `mergeConversation` with a conversation of the server's list. */
  function MergedRemote(c: Conversation, remote: Conversation): Conversation {
    Settled(c.(unreadCount := Some(MergeUnreadCount(c.unreadCount, remote.unreadCount)),
               lastMessage := Newer(c.lastMessage, remote.lastMessage)))
  }

  datatype Adjust = Keep | Clear | Raise

  /** `mergeConversation` with a message. */
  function MergedMessage(c: Conversation, m: Message, adjust: Adjust): Conversation {
    var preview := c.(lastMessage := Newer(c.lastMessage, Some(PreviewSnippet(m))));
    match adjust
    case Keep => Settled(preview)
    case Clear => Settled(preview.(unreadCount := Some(0)))
    case Raise => Settled(preview.(unreadCount := Some(1 + if c.unreadCount.Some? then c.unreadCount.value else 0)))
  }

  predicate FromMe(normalize: string -> string, m: Message, me: Option<string>) {
    normalize(m.senderId) == if me.None? then "" else normalize(me.value)
  }

  /** An own message and one in the open conversation clear the count, any other raises it. */
  function AdjustFor(normalize: string -> string, m: Message, me: Option<string>, active: bool): Adjust {
    if FromMe(normalize, m, me) || active then Clear else Raise
  }

  function WithMessage(t: Table, m: Message, adjust: Adjust): Table {
    t[m.conversationId := MergedMessage(Existing(t, m.conversationId), m, adjust)]
  }

  function WithRemote(t: Table, c: Conversation): Table {
    t[c.id := MergedRemote(Existing(t, c.id), c)]
  }

  function WithMessages(t: Table, ms: seq<Message>): Table {
    if |ms| == 0 then t else WithMessage(WithMessages(t, ms[..|ms| - 1]), ms[|ms| - 1], Keep)
  }

  function WithRemotes(t: Table, cs: seq<Conversation>): Table {
    if |cs| == 0 then t else WithRemote(WithRemotes(t, cs[..|cs| - 1]), cs[|cs| - 1])
  }

  function WithRead(t: Table, id: string): Table {
    if id in t then t[id := t[id].(unreadCount := Some(0))] else t
  }

  // ----- What a table shows.

  function Unread(t: Table, id: string): int {
    if id in t && t[id].unreadCount.Some? then t[id].unreadCount.value else 0
  }

  function Shown(t: Table, id: string): Option<Snippet> {
    if id in t then t[id].lastMessage else None
  }

  /** Nothing but the conversation `id` may differ. */
  ghost predicate OnlyTouches(before: Table, after: Table, id: string) {
    before - {id} == after - {id}
  }

  /** What a message shows: its text, and its own time, else that of its creation, else zero. */
  lemma PreviewIs(m: Message)
    ensures PreviewSnippet(m).content == m.content
    ensures m.timestamp.Some? ==> PreviewSnippet(m).timestamp == m.timestamp
    ensures m.timestamp.None? && m.createdAt.Some? ==> PreviewSnippet(m).timestamp == m.createdAt
    ensures m.timestamp.None? && m.createdAt.None? ==> PreviewSnippet(m).timestamp == Some(0)
  {
  }

  /** A snippet without a time is older than, or as old as, any other; two with one stand as their times do. */
  lemma StampOrders(s: Option<Snippet>, t: Option<Snippet>)
    ensures s.None? || s.value.timestamp.None? ==> Stamp(s) <= Stamp(t)
    ensures s.Some? && t.Some? && s.value.timestamp.Some? && t.value.timestamp.Some? ==>
              (Stamp(s) <= Stamp(t) <==> s.value.timestamp.value <= t.value.timestamp.value)
  {
  }

  /**
    The count after a synced message: zero for a message of the current user, told
    by the normalised ids, or in the open conversation; else one more.
   */
  lemma CountAfterSync(normalize: string -> string, t: Table, m: Message, me: string, active: bool)
    ensures var adjust := AdjustFor(normalize, m, Some(me), active);
            Unread(WithMessage(t, m, adjust), m.conversationId)
            == if normalize(m.senderId) == normalize(me) || active then 0 else Unread(t, m.conversationId) + 1
    ensures var adjust := AdjustFor(normalize, m, None, active);
            Unread(WithMessage(t, m, adjust), m.conversationId)
            == if normalize(m.senderId) == "" || active then 0 else Unread(t, m.conversationId) + 1
  {
  }

  // ----- The store.

  class PreviewStore {
    var cached: Table

    constructor ()
      ensures cached == map[]
    {
      cached := map[];
    }

    method UpsertMessages(messages: seq<Message>)
      modifies this
      ensures cached == WithMessages(old(cached), messages)
    {
      for i := 0 to |messages|
        invariant cached == WithMessages(old(cached), messages[..i])
      {
        assert messages[..i + 1][..i] == messages[..i];
        UpdateConversationPreview(messages[i], Keep);
      }
      assert messages[..|messages|] == messages;
    }

    method SyncConversationPreview(normalize: string -> string, message: Message, me: Option<string>, active: bool)
      modifies this
      ensures cached == WithMessage(old(cached), message, AdjustFor(normalize, message, me, active))
      ensures var id := message.conversationId;
              && id in cached && OnlyTouches(old(cached), cached, id)
              && Unread(cached, id)
                 == (if FromMe(normalize, message, me) || active then 0 else Unread(old(cached), id) + 1)
              && (Shown(cached, id) == Some(PreviewSnippet(message)) || Shown(cached, id) == Shown(old(cached), id))
              && Stamp(Shown(cached, id)) >= Stamp(Some(PreviewSnippet(message)))
              && Stamp(Shown(cached, id)) >= Stamp(Shown(old(cached), id))
    {
      UpdateConversationPreview(message, AdjustFor(normalize, message, me, active));
    }

    method UpdateConversationPreview(message: Message, adjust: Adjust)
      modifies this
      ensures cached == WithMessage(old(cached), message, adjust)
    {
      var merged := Existing(cached, message.conversationId);
      var snippet := Some(PreviewSnippet(message));
      if Stamp(snippet) >= Stamp(merged.lastMessage) {
        merged := merged.(lastMessage := snippet);
      }
      if adjust == Clear {
        merged := merged.(unreadCount := Some(0));
      } else if adjust == Raise {
        merged := merged.(unreadCount := Some(1 + if merged.unreadCount.Some? then merged.unreadCount.value else 0));
      }
      if merged.unreadCount.None? {
        merged := merged.(unreadCount := Some(0));
      }
      cached := cached[message.conversationId := merged];
    }

    method UpsertConversations(conversations: seq<Conversation>)
      modifies this
      ensures cached == WithRemotes(old(cached), conversations)
    {
      for i := 0 to |conversations|
        invariant cached == WithRemotes(old(cached), conversations[..i])
      {
        assert conversations[..i + 1][..i] == conversations[..i];
        var remote := conversations[i];
        var merged := Existing(cached, remote.id);
        merged := merged.(unreadCount := Some(MergeUnreadCount(merged.unreadCount, remote.unreadCount)));
        if Stamp(remote.lastMessage) >= Stamp(merged.lastMessage) {
          merged := merged.(lastMessage := remote.lastMessage);
        }
        cached := cached[remote.id := merged];
      }
      assert conversations[..|conversations|] == conversations;
    }

    method MarkConversationRead(id: string)
      modifies this
      ensures cached == WithRead(old(cached), id)
      ensures cached.Keys == old(cached).Keys && OnlyTouches(old(cached), cached, id)
      ensures Unread(cached, id) == 0 && Shown(cached, id) == Shown(old(cached), id)
    {
      if id in cached {
        cached := cached[id := cached[id].(unreadCount := Some(0))];
      }
    }
  }

  // ----- Runs.

  datatype Event =
    | Upsert(messages: seq<Message>)
    | Sync(message: Message, me: Option<string>, active: bool)
    | Remote(conversations: seq<Conversation>)
    | Read(id: string)

  function Apply(normalize: string -> string, t: Table, e: Event): Table {
    match e
    case Upsert(ms) => WithMessages(t, ms)
    case Sync(m, me, active) => WithMessage(t, m, AdjustFor(normalize, m, me, active))
    case Remote(cs) => WithRemotes(t, cs)
    case Read(id) => WithRead(t, id)
  }

  function Exec(normalize: string -> string, events: seq<Event>): Table {
    if |events| == 0 then map[] else Apply(normalize, Exec(normalize, events[..|events| - 1]), events[|events| - 1])
  }

  // ----- The preview is the latest of everything offered.

  function OfMessage(id: string): Message -> seq<Option<Snippet>> {
    (m: Message) => if m.conversationId == id then [Some(PreviewSnippet(m))] else []
  }

  function OfConversation(id: string): Conversation -> seq<Option<Snippet>> {
    (c: Conversation) => if c.id == id then [c.lastMessage] else []
  }

  /** The snippets an event offers for a conversation, in order. */
  function Offers(id: string): Event -> seq<Option<Snippet>> {
    (e: Event) =>
      match e
      case Upsert(ms) => FlatMap(OfMessage(id), ms)
      case Sync(m, _, _) => OfMessage(id)(m)
      case Remote(cs) => FlatMap(OfConversation(id), cs)
      case Read(_) => []
  }

  /** An offer no other is newer than, and the last of those. */
  ghost predicate IsLatest(offers: seq<Option<Snippet>>, p: Option<Snippet>) {
    exists k :: 0 <= k < |offers| && offers[k] == p
                && (forall j :: 0 <= j < |offers| ==> Stamp(offers[j]) <= Stamp(p))
                && (forall j :: k < j < |offers| ==> Stamp(offers[j]) < Stamp(p))
  }

  /** Stored exactly if something was offered, with the latest of it. */
  ghost predicate Shows(t: Table, id: string, offers: seq<Option<Snippet>>) {
    if id in t then IsLatest(offers, t[id].lastMessage) else offers == []
  }

  lemma NewerIsLatest(offers: seq<Option<Snippet>>, p: Option<Snippet>, offered: Option<Snippet>)
    requires IsLatest(offers, p) || (offers == [] && p == None)
    ensures IsLatest(offers + [offered], Newer(p, offered))
  {
    var all := offers + [offered];
    if Stamp(offered) >= Stamp(p) {
      assert all[|offers|] == offered;
    } else {
      var k :| 0 <= k < |offers| && offers[k] == p
               && (forall j :: 0 <= j < |offers| ==> Stamp(offers[j]) <= Stamp(p))
               && (forall j :: k < j < |offers| ==> Stamp(offers[j]) < Stamp(p));
      assert all[k] == p;
    }
  }

  lemma MessageShows(t: Table, m: Message, adjust: Adjust, id: string, offers: seq<Option<Snippet>>)
    requires Shows(t, id, offers)
    ensures Shows(WithMessage(t, m, adjust), id, offers + OfMessage(id)(m))
  {
    if m.conversationId == id {
      NewerIsLatest(offers, Existing(t, id).lastMessage, Some(PreviewSnippet(m)));
    } else {
      assert offers + [] == offers;
    }
  }

  lemma RemoteShows(t: Table, c: Conversation, id: string, offers: seq<Option<Snippet>>)
    requires Shows(t, id, offers)
    ensures Shows(WithRemote(t, c), id, offers + OfConversation(id)(c))
  {
    if c.id == id {
      NewerIsLatest(offers, Existing(t, id).lastMessage, c.lastMessage);
    } else {
      assert offers + [] == offers;
    }
  }

  lemma {:induction false} MessagesShow(t: Table, ms: seq<Message>, id: string, offers: seq<Option<Snippet>>)
    requires Shows(t, id, offers)
    ensures Shows(WithMessages(t, ms), id, offers + FlatMap(OfMessage(id), ms))
  {
    if |ms| == 0 {
      assert offers + [] == offers;
    } else {
      var init, last := ms[..|ms| - 1], ms[|ms| - 1];
      MessagesShow(t, init, id, offers);
      MessageShows(WithMessages(t, init), last, Keep, id, offers + FlatMap(OfMessage(id), init));
      ConcatAssociates(offers, FlatMap(OfMessage(id), init), OfMessage(id)(last));
    }
  }

  lemma {:induction false} RemotesShow(t: Table, cs: seq<Conversation>, id: string, offers: seq<Option<Snippet>>)
    requires Shows(t, id, offers)
    ensures Shows(WithRemotes(t, cs), id, offers + FlatMap(OfConversation(id), cs))
  {
    if |cs| == 0 {
      assert offers + [] == offers;
    } else {
      var init, last := cs[..|cs| - 1], cs[|cs| - 1];
      RemotesShow(t, init, id, offers);
      RemoteShows(WithRemotes(t, init), last, id, offers + FlatMap(OfConversation(id), init));
      ConcatAssociates(offers, FlatMap(OfConversation(id), init), OfConversation(id)(last));
    }
  }

  lemma EventShows(normalize: string -> string, t: Table, e: Event, id: string, offers: seq<Option<Snippet>>)
    requires Shows(t, id, offers)
    ensures Shows(Apply(normalize, t, e), id, offers + Offers(id)(e))
  {
    match e
    case Upsert(ms) => MessagesShow(t, ms, id, offers);
    case Sync(m, me, active) => MessageShows(t, m, AdjustFor(normalize, m, me, active), id, offers);
    case Remote(cs) => RemotesShow(t, cs, id, offers);
    case Read(_) => assert offers + [] == offers;
  }

  /**
    Over any run the preview of a conversation is the newest snippet ever offered
    for it, from whichever side, and among equally new ones the last.
   */
  lemma {:induction false} PreviewIsLatestOffer(normalize: string -> string, events: seq<Event>, id: string)
    ensures Shows(Exec(normalize, events), id, FlatMap(Offers(id), events))
  {
    if |events| > 0 {
      var before, e := events[..|events| - 1], events[|events| - 1];
      PreviewIsLatestOffer(normalize, before, id);
      EventShows(normalize, Exec(normalize, before), e, id, FlatMap(Offers(id), before));
    }
  }

  // ----- The unread count.

  predicate RemoteCountsOk(e: Event) {
    e.Remote? ==> forall c :: c in e.conversations && c.unreadCount.Some? ==> c.unreadCount.value >= 0
  }

  /** Every stored count is there, and not negative. */
  ghost predicate Counted(t: Table) {
    forall id :: id in t ==> t[id].unreadCount.Some? && t[id].unreadCount.value >= 0
  }

  /** A message of somebody else arrives while the conversation is closed. */
  predicate Raises(normalize: string -> string, e: Event, id: string) {
    e.Sync? && e.message.conversationId == id && !FromMe(normalize, e.message, e.me) && !e.active
  }

  /** The conversation is marked read, or an own message or one in the open conversation arrives. */
  predicate Clears(normalize: string -> string, e: Event, id: string) {
    (e.Sync? && e.message.conversationId == id && (FromMe(normalize, e.message, e.me) || e.active)) || e == Read(id)
  }

  lemma {:induction false} MessagesKeepUnread(t: Table, ms: seq<Message>, id: string)
    requires Counted(t)
    ensures Counted(WithMessages(t, ms)) && Unread(WithMessages(t, ms), id) == Unread(t, id)
  {
    if |ms| > 0 {
      MessagesKeepUnread(t, ms[..|ms| - 1], id);
    }
  }

  lemma {:induction false} RemotesKeepZero(t: Table, cs: seq<Conversation>, id: string)
    requires Counted(t) && forall c :: c in cs && c.unreadCount.Some? ==> c.unreadCount.value >= 0
    ensures Counted(WithRemotes(t, cs))
    ensures Unread(t, id) == 0 ==> Unread(WithRemotes(t, cs), id) == 0
  {
    if |cs| > 0 {
      RemotesKeepZero(t, cs[..|cs| - 1], id);
    }
  }

  function CountsFor(id: string): Conversation -> seq<int> {
    (c: Conversation) => if c.id == id && c.unreadCount.Some? then [c.unreadCount.value] else []
  }

  /** The counts a list of the server's has for a conversation. */
  function RemoteCounts(cs: seq<Conversation>, id: string): seq<int> {
    FlatMap(CountsFor(id), cs)
  }

  /**
    What a list of the server's makes of a count: zero stays zero and a zero in the
    list clears it; else the last count in the list replaces it, if there is any.
   */
  lemma {:induction false} RemoteUnread(t: Table, cs: seq<Conversation>, id: string)
    requires Counted(t) && forall c :: c in cs && c.unreadCount.Some? ==> c.unreadCount.value >= 0
    ensures var counts := RemoteCounts(cs, id);
            Unread(WithRemotes(t, cs), id) ==
            if Unread(t, id) == 0 || 0 in counts then 0
            else if counts == [] then Unread(t, id)
            else counts[|counts| - 1]
  {
    if |cs| > 0 {
      var init, last := cs[..|cs| - 1], cs[|cs| - 1];
      RemoteUnread(t, init, id);
      RemotesKeepZero(t, init, id);
      assert RemoteCounts(cs, id) == RemoteCounts(init, id) + CountsFor(id)(last);
      OneRemoteUnread(WithRemotes(t, init), last, id);
    }
  }

  lemma OneRemoteUnread(t: Table, c: Conversation, id: string)
    requires Counted(t)
    ensures Unread(WithRemote(t, c), id) ==
            if c.id == id && c.unreadCount.Some? && Unread(t, id) != 0 then c.unreadCount.value else Unread(t, id)
  {
  }

  lemma UnreadStep(normalize: string -> string, t: Table, e: Event, id: string)
    requires Counted(t) && RemoteCountsOk(e)
    ensures Counted(Apply(normalize, t, e))
    ensures Raises(normalize, e, id) ==> Unread(Apply(normalize, t, e), id) == Unread(t, id) + 1
    ensures Clears(normalize, e, id) ==> Unread(Apply(normalize, t, e), id) == 0
    ensures Unread(t, id) == 0 && !Raises(normalize, e, id) ==> Unread(Apply(normalize, t, e), id) == 0
  {
    match e
    case Upsert(ms) => MessagesKeepUnread(t, ms, id);
    case Sync(_, _, _) =>
    case Remote(cs) => RemotesKeepZero(t, cs, id);
    case Read(_) =>
  }

  lemma {:induction false} CountsNeverNegative(normalize: string -> string, events: seq<Event>)
    requires forall e :: e in events ==> RemoteCountsOk(e)
    ensures Counted(Exec(normalize, events))
  {
    if |events| > 0 {
      var before := events[..|events| - 1];
      assert forall e :: e in before ==> e in events;
      CountsNeverNegative(normalize, before);
      UnreadStep(normalize, Exec(normalize, before), events[|events| - 1], "");
    }
  }

  /** A message of somebody else arrived in the closed conversation, and nothing has cleared the count since. */
  ghost predicate HasCause(normalize: string -> string, events: seq<Event>, id: string) {
    exists k :: 0 <= k < |events| && Raises(normalize, events[k], id)
                && forall l :: k < l < |events| ==> !Clears(normalize, events[l], id)
  }

  lemma CauseStays(normalize: string -> string, before: seq<Event>, e: Event, id: string)
    requires (HasCause(normalize, before, id) && !Clears(normalize, e, id)) || Raises(normalize, e, id)
    ensures HasCause(normalize, before + [e], id)
  {
    var events := before + [e];
    if Raises(normalize, e, id) {
      assert Raises(normalize, events[|before|], id);
    } else {
      var k :| 0 <= k < |before| && Raises(normalize, before[k], id)
               && forall l :: k < l < |before| ==> !Clears(normalize, before[l], id);
      assert Raises(normalize, events[k], id);
    }
  }

  /**
    Once zero, a count stays zero until somebody else's message arrives in the
    closed conversation: the server's list alone never raises it, not even for a
    conversation seen for the first time.
   */
  lemma {:induction false} UnreadHasCause(normalize: string -> string, events: seq<Event>, id: string)
    requires forall e :: e in events ==> RemoteCountsOk(e)
    ensures Unread(Exec(normalize, events), id) != 0 ==> HasCause(normalize, events, id)
  {
    if |events| > 0 {
      var before, e := events[..|events| - 1], events[|events| - 1];
      assert events == before + [e] && e in events && forall x :: x in before ==> x in events;
      UnreadHasCause(normalize, before, id);
      CountsNeverNegative(normalize, before);
      UnreadStep(normalize, Exec(normalize, before), e, id);
      if Unread(Exec(normalize, events), id) != 0 {
        CauseStays(normalize, before, e, id);
      }
    }
  }

  /** Without the server's lists the count is exact: the messages of others since it was last cleared. */
  lemma {:induction false} UnreadCountsRaises(normalize: string -> string, events: seq<Event>, id: string)
    requires forall e :: e in events ==> !e.Remote?
    ensures Unread(Exec(normalize, events), id) == RaisesSinceClear(normalize, events, id)
  {
    if |events| > 0 {
      var before, e := events[..|events| - 1], events[|events| - 1];
      assert e in events && forall x :: x in before ==> x in events;
      UnreadCountsRaises(normalize, before, id);
      CountsNeverNegative(normalize, before);
      UnreadStep(normalize, Exec(normalize, before), e, id);
      if e.Upsert? {
        MessagesKeepUnread(Exec(normalize, before), e.messages, id);
      }
    }
  }

  function RaisesSinceClear(normalize: string -> string, events: seq<Event>, id: string): nat {
    if |events| == 0 || Clears(normalize, events[|events| - 1], id) then 0
    else RaisesSinceClear(normalize, events[..|events| - 1], id)
         + if Raises(normalize, events[|events| - 1], id) then 1 else 0
  }
}
