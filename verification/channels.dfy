/** Channel creation. New channels live only in this client's channel list;
    nothing about them is written to the store until a message is sent. */
module Channels {
  import opened Text
  import opened Records
  import opened Gateway
  import opened Session
  import opened MessageLog

  const NewChannelIcon: string := "\U{1F4AC}"

  /** `name.toLowerCase().replace(/\s+/g, '-')`. The name is not trimmed
      first, so surrounding white space becomes leading or trailing hyphens. */
  function ChannelId(name: string): (id: string)
    ensures NoSpace(id)
    ensures name != [] ==> id != []
  {
    DashRuns(ToLower(name))
  }

  /** `createChannel`: a blank name does nothing. Otherwise the channel is
      appended to the list (even if one with the same id exists), its cached
      log is reset to empty, the form is closed and the channel becomes active. */
  function CreateChannel(c: Chat): (r: Chat)
    ensures Blank(c.newChannelName) ==> r == c
    ensures !Blank(c.newChannelName) ==>
              var id := ChannelId(c.newChannelName);
              && r.channels == c.channels + [Channel(id, id, NewChannelIcon)]
              && r.messages == c.messages[id := []]
              && r.activeChannel == id
              && r.newChannelName == "" && !r.showCreateChannel
              && r.messageInput == c.messageInput && r.onlineUsers == c.onlineUsers
  {
    if Blank(c.newChannelName) then c
    else
      var id := ChannelId(c.newChannelName);
      c.(channels := c.channels + [Channel(id, id, NewChannelIcon)],
         messages := c.messages[id := []],
         newChannelName := "",
         showCreateChannel := false,
         activeChannel := id)
  }

  // ---------------------------------------------------------------------------
  // Lemmas

  /** A created channel adds its id to the known ids, adds exactly one entry
      to the list (duplicates included), and starts with an empty local log. */
  lemma CreateChannelAddsOne(c: Chat)
    requires !Blank(c.newChannelName)
    ensures var r := CreateChannel(c);
            && ChannelIds(r.channels) == ChannelIds(c.channels) + {r.activeChannel}
            && |r.channels| == |c.channels| + 1
            && CachedLog(r, r.activeChannel) == []
  {
    var id := ChannelId(c.newChannelName);
    ChannelIdsSnoc(c.channels, Channel(id, id, NewChannelIcon));
  }

  /** An id is its own id: creating a channel named after an existing id
      gives back that id. */
  lemma ChannelIdIdempotent(name: string)
    ensures ChannelId(ChannelId(name)) == ChannelId(name)
  {
    ToLowerIdempotent(name);
    DashRunsKeepsLower(ToLower(name));
    DashRunsKeepsWords(ChannelId(name));
  }

  /** A lower-case name without white space is used as the id unchanged. */
  lemma ChannelIdOfSlug(name: string)
    requires NoSpace(name) && ToLower(name) == name
    ensures ChannelId(name) == name
  {
    DashRunsKeepsWords(name);
  }

  /** Creating a channel twice under the same name lists it twice. */
  lemma CreateTwiceListsTwice(c: Chat, name: string)
    requires !Blank(name)
    ensures var r1 := CreateChannel(c.(newChannelName := name));
            var r2 := CreateChannel(r1.(newChannelName := name));
            var ch := Channel(ChannelId(name), ChannelId(name), NewChannelIcon);
            r2.channels == c.channels + [ch, ch]
  {
  }

  /** Sending into a channel whose cached log is empty, with a write that goes
      through, stores a log of just that message. */
  lemma SendIntoEmptyLog(c: Client, store: Store, d: Draft)
    requires c.currentUser.Some? && !Blank(d.text)
    requires CachedLog(c.chat, c.chat.activeChannel) == []
    ensures var r := SendDraft(c, store, NoFaults, d);
            var ch := c.chat.activeChannel;
            MessagesKey(ch) in r.store && r.store[MessagesKey(ch)] == MessageLog([Message(d.id, Me(c), d.text, d.now, ch)])
  {
    var m := Message(d.id, Me(c), d.text, d.now, c.chat.activeChannel);
    SendDraftAppends(c, store, NoFaults, d);
    assert CachedLog(c.chat, c.chat.activeChannel) + [m] == [m];
  }

  /** Re-creating a channel whose id already has a stored history resets the
      local log, so the next message sent there (with a write that goes
      through) replaces the whole shared history with that one message. */
  lemma RecreatedChannelOverwritesHistory(c: Client, store: Store, d: Draft)
    requires c.currentUser.Some? && !Blank(c.chat.newChannelName) && !Blank(d.text)
    ensures var c1 := c.(chat := CreateChannel(c.chat));
            var r := SendDraft(c1, store, NoFaults, d);
            var ch := ChannelId(c.chat.newChannelName);
            MessagesKey(ch) in r.store && r.store[MessagesKey(ch)] == MessageLog([Message(d.id, Me(c), d.text, d.now, ch)])
  {
    var c1 := c.(chat := CreateChannel(c.chat));
    CreateChannelAddsOne(c.chat);
    SendIntoEmptyLog(c1, store, d);
  }
}
