/** The channel message log: one shared record per channel under
    `messages:<channel id>`, holding the whole list of the channel's messages.
    Sending appends to the locally cached list and writes that list back
    without re-reading the store. */
module MessageLog {
  import opened Text
  import opened Records
  import opened Gateway
  import opened Session

  /** A channel's record can be loaded: its `get` returns, and what it returns,
      if anything, is a message list. */
  predicate LogReadable(store: Store, faults: Faults, channel: string) {
    var key := MessagesKey(channel);
    key !in faults.readFails && (key !in store || store[key].MessageLog?)
  }

  predicate AllLogsReadable(channels: seq<Channel>, store: Store, faults: Faults) {
    forall i :: 0 <= i < |channels| ==> LogReadable(store, faults, channels[i].id)
  }

  /** The stored log of a channel; a missing record is an empty log. */
  function StoredLog(store: Store, channel: string): seq<Message> {
    var key := MessagesKey(channel);
    if key in store && store[key].MessageLog? then store[key].log else []
  }

  lemma ChannelIdsSnoc(front: seq<Channel>, last: Channel)
    ensures ChannelIds(front + [last]) == ChannelIds(front) + {last.id}
  {
    var all := front + [last];
    forall id | id in ChannelIds(all)
      ensures id in ChannelIds(front) + {last.id}
    {
      var i :| 0 <= i < |all| && all[i].id == id;
      if i < |front| {
        assert front[i] == all[i];
      }
    }
    forall id | id in ChannelIds(front)
      ensures id in ChannelIds(all)
    {
      var i :| 0 <= i < |front| && front[i].id == id;
      assert all[i] == front[i];
    }
    assert all[|front|] == last;
  }

  /** The read loop of `loadMessages` over the channel list: the log of every
      channel, or `None` as soon as one read throws. */
  function LoadAll(channels: seq<Channel>, store: Store, faults: Faults): (r: Option<map<string, seq<Message>>>)
    ensures r.Some? <==> AllLogsReadable(channels, store, faults)
    ensures r.Some? ==> r.value.Keys == ChannelIds(channels)
    ensures r.Some? ==> forall id :: id in r.value ==> r.value[id] == StoredLog(store, id)
    decreases |channels|
  {
    if channels == [] then Some(map[])
    else
      var front := channels[..|channels| - 1];
      var last := channels[|channels| - 1];
      assert channels == front + [last];
      ChannelIdsSnoc(front, last);
      assert AllLogsReadable(channels, store, faults) <==>
             AllLogsReadable(front, store, faults) && LogReadable(store, faults, last.id) by {
        assert forall i :: 0 <= i < |front| ==> front[i] == channels[i];
      }
      match LoadAll(front, store, faults)
      case None => None
      case Some(m) =>
        if LogReadable(store, faults, last.id) then Some(m[last.id := StoredLog(store, last.id)])
        else None
  }

  /** Every known channel with an empty log: what `loadMessages` shows after
      any failure. */
  function EmptyLogs(channels: seq<Channel>): (m: map<string, seq<Message>>)
    ensures m.Keys == ChannelIds(channels)
    ensures forall id :: id in m ==> m[id] == []
  {
    map id | id in ChannelIds(channels) :: []
  }

  /** `loadMessages`: replace the cached logs with the stored log of every
      known channel. A single failed read empties every channel, including
      the ones already read. */
  function LoadMessages(c: Client, store: Store, faults: Faults): (r: Client)
    ensures r == c.(chat := c.chat.(messages := r.chat.messages))
    ensures r.chat.messages.Keys == ChannelIds(c.chat.channels)
    ensures AllLogsReadable(c.chat.channels, store, faults) ==>
              forall id :: id in r.chat.messages ==> r.chat.messages[id] == StoredLog(store, id)
    ensures !AllLogsReadable(c.chat.channels, store, faults) ==>
              forall id :: id in r.chat.messages ==> r.chat.messages[id] == []
  {
    match LoadAll(c.chat.channels, store, faults)
    case Some(m) => c.(chat := c.chat.(messages := m))
    case None => c.(chat := c.chat.(messages := EmptyLogs(c.chat.channels)))
  }

  /** The message `sendMessage` builds from the input box. `id` and `now` are
      the two clock readings. */
  function Compose(c: Client, id: int, now: int): Message
    requires c.currentUser.Some?
  {
    Message(id, Me(c), c.chat.messageInput, now, c.chat.activeChannel)
  }

  /** `sendMessage`: a blank input does nothing. Otherwise the message is
      appended to the cached log of the active channel, that whole list is
      written over the channel's record (a failed write is ignored), and the
      input box is cleared either way. */
  function SendMessage(c: Client, store: Store, faults: Faults, id: int, now: int): (r: Step)
    requires c.currentUser.Some?
    ensures Blank(c.chat.messageInput) ==> r == Step(c, store)
    ensures !Blank(c.chat.messageInput) ==>
              var ch := c.chat.activeChannel;
              var log := CachedLog(c.chat, ch) + [Compose(c, id, now)];
              // the local list advances whatever happens to the write
              && r.client == c.(chat := c.chat.(messages := c.chat.messages[ch := log], messageInput := ""))
              // the stored record becomes the cached list, whatever it held before
              && r.store == (if MessagesKey(ch) in faults.writeFails then store else store[MessagesKey(ch) := MessageLog(log)])
  {
    if Blank(c.chat.messageInput) then Step(c, store)
    else
      var ch := c.chat.activeChannel;
      var log := CachedLog(c.chat, ch) + [Compose(c, id, now)];
      var w := Set(store, faults, MessagesKey(ch), MessageLog(log));
      Step(c.(chat := c.chat.(messages := c.chat.messages[ch := log], messageInput := "")), w.store)
  }

  /** Sending touches one channel only: no other cached log and no other
      stored record changes. */
  lemma SendTouchesOneChannel(c: Client, store: Store, faults: Faults, id: int, now: int)
    requires c.currentUser.Some?
    ensures var r := SendMessage(c, store, faults, id, now);
            && (forall ch :: ch != c.chat.activeChannel ==> CachedLog(r.client.chat, ch) == CachedLog(c.chat, ch))
            && (forall k :: k != MessagesKey(c.chat.activeChannel) ==>
                  (k in r.store <==> k in store) && (k in store ==> r.store[k] == store[k]))
  {
    var r := SendMessage(c, store, faults, id, now);
    var key := MessagesKey(c.chat.activeChannel);
    if !Blank(c.chat.messageInput) {
      var log := CachedLog(c.chat, c.chat.activeChannel) + [Compose(c, id, now)];
      assert r.client.chat.messages == c.chat.messages[c.chat.activeChannel := log];
      assert r.store == store || r.store == store[key := MessageLog(log)];
    }
  }

  // ---------------------------------------------------------------------------
  // Sending several messages

  /** One message as the user types and sends it, with its two clock readings. */
  datatype Draft = Draft(text: string, id: int, now: int)

  /** Type a draft into the input box and send it. */
  function SendDraft(c: Client, store: Store, faults: Faults, d: Draft): Step
    requires c.currentUser.Some?
  {
    SendMessage(c.(chat := c.chat.(messageInput := d.text)), store, faults, d.id, d.now)
  }

  /** Type each draft into the input box and send it, in order. */
  function SendAll(c: Client, store: Store, faults: Faults, drafts: seq<Draft>): (r: Step)
    requires c.currentUser.Some?
    ensures r.client.currentUser == c.currentUser
    ensures r.client.chat.activeChannel == c.chat.activeChannel
    decreases |drafts|
  {
    if drafts == [] then Step(c, store)
    else
      var prev := SendAll(c, store, faults, drafts[..|drafts| - 1]);
      var d := drafts[|drafts| - 1];
      SendDraft(prev.client, prev.store, faults, d)
  }

  /** The messages the drafts become in `channel` when sent by `user`. */
  function Posted(drafts: seq<Draft>, user: string, channel: string): (ms: seq<Message>)
    ensures |ms| == |drafts|
  {
    seq(|drafts|, i requires 0 <= i < |drafts| => Message(drafts[i].id, user, drafts[i].text, drafts[i].now, channel))
  }

  lemma PostedSnoc(drafts: seq<Draft>, user: string, channel: string)
    requires drafts != []
    ensures var d := drafts[|drafts| - 1];
            Posted(drafts, user, channel) ==
            Posted(drafts[..|drafts| - 1], user, channel) + [Message(d.id, user, d.text, d.now, channel)]
  {
  }

  lemma AppendAssoc(a: seq<Message>, b: seq<Message>, e: seq<Message>)
    ensures (a + b) + e == a + (b + e)
  {
  }

  lemma AppendTwo(log: seq<Message>, m1: Message, m2: Message)
    ensures (log + [m1]) + [m2] == log + [m1, m2]
  {
  }

  predicate NoneBlank(drafts: seq<Draft>) {
    forall i :: 0 <= i < |drafts| ==> !Blank(drafts[i].text)
  }

  /** Typing a draft and sending it appends exactly that message to the
      channel's cached log; the stored record becomes that log when the write
      goes through and stays as it was when it throws. */
  lemma SendDraftAppends(c: Client, store: Store, faults: Faults, d: Draft)
    requires c.currentUser.Some? && !Blank(d.text)
    ensures var ch := c.chat.activeChannel;
            var key := MessagesKey(ch);
            var r := SendDraft(c, store, faults, d);
            var log := CachedLog(c.chat, ch) + [Message(d.id, Me(c), d.text, d.now, ch)];
            && r.client.currentUser == c.currentUser && r.client.chat.activeChannel == ch
            && CachedLog(r.client.chat, ch) == log
            && (key !in faults.writeFails ==> key in r.store && r.store[key] == MessageLog(log))
            && (key in faults.writeFails ==> r.store == store)
  {
  }

  /** Sending N drafts leaves the channel's cached log equal to the old
      cached log followed by the N messages in the order they were sent,
      whatever their ids and whether or not the writes go through. */
  lemma {:induction false} SendAllAppends(c: Client, store: Store, faults: Faults, drafts: seq<Draft>)
    requires c.currentUser.Some? && NoneBlank(drafts)
    ensures var ch := c.chat.activeChannel;
            CachedLog(SendAll(c, store, faults, drafts).client.chat, ch) == CachedLog(c.chat, ch) + Posted(drafts, Me(c), ch)
    decreases |drafts|
  {
    var ch := c.chat.activeChannel;
    if drafts == [] {
      assert SendAll(c, store, faults, drafts) == Step(c, store);
      assert CachedLog(c.chat, ch) + Posted(drafts, Me(c), ch) == CachedLog(c.chat, ch);
    } else {
      var front := drafts[..|drafts| - 1];
      var d := drafts[|drafts| - 1];
      assert NoneBlank(front) by {
        assert forall i :: 0 <= i < |front| ==> front[i] == drafts[i];
      }
      SendAllAppends(c, store, faults, front);
      var prev := SendAll(c, store, faults, front);
      assert SendAll(c, store, faults, drafts) == SendDraft(prev.client, prev.store, faults, d);
      SendDraftAppends(prev.client, prev.store, faults, d);
      PostedSnoc(drafts, Me(c), ch);
      AppendAssoc(CachedLog(c.chat, ch), Posted(front, Me(c), ch), [Message(d.id, Me(c), d.text, d.now, ch)]);
    }
  }

  /** When the channel's writes go through, the stored record of the channel
      after a run of sends is the sender's whole cached log: the old cached
      log followed by every message sent, in order. A write that throws
      partway is the case `NextSendHeals` covers. */
  lemma SendAllStores(c: Client, store: Store, faults: Faults, drafts: seq<Draft>)
    requires c.currentUser.Some? && NoneBlank(drafts) && drafts != []
    requires MessagesKey(c.chat.activeChannel) !in faults.writeFails
    ensures var r := SendAll(c, store, faults, drafts);
            var ch := c.chat.activeChannel;
            && MessagesKey(ch) in r.store
            && r.store[MessagesKey(ch)] == MessageLog(CachedLog(c.chat, ch) + Posted(drafts, Me(c), ch))
  {
    var front := drafts[..|drafts| - 1];
    var d := drafts[|drafts| - 1];
    var prev := SendAll(c, store, faults, front);
    assert SendAll(c, store, faults, drafts) == SendDraft(prev.client, prev.store, faults, d);
    SendDraftAppends(prev.client, prev.store, faults, d);
    SendAllAppends(c, store, faults, drafts);
  }

  /** A record written by `sendMessage` is read back by `loadMessages`, with
      no storage faults, exactly as the sender's cached log. */
  lemma SentLogLoadsBack(c: Client, store: Store, faults: Faults, drafts: seq<Draft>, viewer: Client)
    requires c.currentUser.Some? && NoneBlank(drafts) && drafts != []
    requires MessagesKey(c.chat.activeChannel) !in faults.writeFails
    requires c.chat.activeChannel in ChannelIds(viewer.chat.channels)
    requires AllLogsReadable(viewer.chat.channels, SendAll(c, store, faults, drafts).store, NoFaults)
    ensures var r := SendAll(c, store, faults, drafts);
            var ch := c.chat.activeChannel;
            LoadMessages(viewer, r.store, NoFaults).chat.messages[ch] == CachedLog(c.chat, ch) + Posted(drafts, Me(c), ch)
  {
    SendAllStores(c, store, faults, drafts);
  }

  /** A failed write leaves the store as it was while the sender's own view
      already shows the message: local and stored logs diverge. */
  lemma FailedWriteDiverges(c: Client, store: Store, faults: Faults, id: int, now: int)
    requires c.currentUser.Some? && !Blank(c.chat.messageInput)
    requires MessagesKey(c.chat.activeChannel) in faults.writeFails
    ensures var r := SendMessage(c, store, faults, id, now);
            var ch := c.chat.activeChannel;
            && r.store == store
            && Compose(c, id, now) in CachedLog(r.client.chat, ch)
            && r.client.chat.messageInput == ""
  {
  }

  /** The next send whose write goes through carries the earlier unsaved
      message along, since it writes the whole cached list. */
  lemma NextSendHeals(c: Client, store: Store, faults: Faults, faults': Faults, d1: Draft, d2: Draft)
    requires c.currentUser.Some? && !Blank(d1.text) && !Blank(d2.text)
    requires MessagesKey(c.chat.activeChannel) in faults.writeFails
    requires MessagesKey(c.chat.activeChannel) !in faults'.writeFails
    ensures var ch := c.chat.activeChannel;
            var r1 := SendDraft(c, store, faults, d1);
            var r2 := SendDraft(r1.client, r1.store, faults', d2);
            && r1.store == store
            && r2.store[MessagesKey(ch)] == MessageLog(CachedLog(c.chat, ch) + [
                 Message(d1.id, Me(c), d1.text, d1.now, ch), Message(d2.id, Me(c), d2.text, d2.now, ch)])
  {
    var ch := c.chat.activeChannel;
    var r1 := SendDraft(c, store, faults, d1);
    var m1 := Message(d1.id, Me(c), d1.text, d1.now, ch);
    var m2 := Message(d2.id, Me(c), d2.text, d2.now, ch);
    SendDraftAppends(c, store, faults, d1);
    assert CachedLog(r1.client.chat, ch) == CachedLog(c.chat, ch) + [m1];
    SendDraftAppends(r1.client, r1.store, faults', d2);
    AppendTwo(CachedLog(c.chat, ch), m1, m2);
  }

  /** Two clients holding the same cached log each send one message: the
      second write replaces the first, so the first message is lost from the
      store although its sender still sees it. */
  lemma StaleCacheLosesMessage(a: Client, b: Client, store: Store, da: Draft, db: Draft)
    requires a.currentUser.Some? && b.currentUser.Some?
    requires a.chat.activeChannel == b.chat.activeChannel
    requires CachedLog(a.chat, a.chat.activeChannel) == CachedLog(b.chat, b.chat.activeChannel)
    requires !Blank(da.text) && !Blank(db.text) && da.id != db.id
    requires forall m :: m in CachedLog(a.chat, a.chat.activeChannel) ==> m.id != da.id
    ensures var ch := a.chat.activeChannel;
            var ra := SendDraft(a, store, NoFaults, da);
            var rb := SendDraft(b, ra.store, NoFaults, db);
            var lost := Message(da.id, Me(a), da.text, da.now, ch);
            && lost in CachedLog(ra.client.chat, ch)
            && rb.store[MessagesKey(ch)].MessageLog?
            && lost !in rb.store[MessagesKey(ch)].log
  {
    var ch := a.chat.activeChannel;
    var lost := Message(da.id, Me(a), da.text, da.now, ch);
    assert lost !in CachedLog(a.chat, ch);
  }
}
