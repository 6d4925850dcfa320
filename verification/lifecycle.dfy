/** Leaving the chat, and the shape of the store across every handler.
    `handleLogout` only clears the session; the chat effect's clean-up, which
    still sees the user who was signed in, then takes that name off the
    presence list. */
module Lifecycle {
  import opened Text
  import opened Records
  import opened Gateway
  import opened Session
  import opened Accounts
  import opened Presence
  import opened MessageLog

  /** `handleLogout` followed by the clean-up of the chat effect. The clean-up
      exists only while a user is signed in; the forms are cleared except the
      typed-in school, and the chat view is left as it was. */
  function Logout(c: Client, store: Store, faults: Faults): (r: Step)
    ensures !r.client.loggedIn && r.client.currentUser.None? && r.client.error.None?
    ensures r.client.forms == EmptyForms.(otherSchool := c.forms.otherSchool)
    ensures r.client.chat == c.chat
    // nothing but the presence record changes
    ensures forall k :: k != OnlineKey ==> (k in r.store <==> k in store) && (k in store ==> r.store[k] == store[k])
    // a signed-out client leaves the store alone
    ensures !(c.loggedIn && c.currentUser.Some?) ==> r.store == store
    // a list that cannot be read or rewritten stays exactly as it was
    ensures !LeaveWrites(store, faults) ==> r.store == store
    // otherwise the filtered list, possibly empty, is written back in place
    ensures c.loggedIn && c.currentUser.Some? && LeaveWrites(store, faults) ==>
              r.store == store[OnlineKey := NameList(Without(Listed(store), Me(c)))]
    // so the user's name is filtered out and the order of the rest kept
    ensures c.loggedIn && c.currentUser.Some? && LeaveWrites(store, faults) ==>
              Listed(r.store) == Without(Listed(store), Me(c))
    // a signed-in user is taken off the list whenever the list can be rewritten
    ensures c.loggedIn && c.currentUser.Some? && LeaveWrites(store, faults) ==> Me(c) !in Listed(r.store)
    ensures c.loggedIn && c.currentUser.Some? ==>
              forall x :: x != Me(c) ==> (x in Listed(r.store) <==> x in Listed(store))
  {
    var cleared := Client(false, None, None, EmptyForms.(otherSchool := c.forms.otherSchool), c.chat);
    if c.loggedIn && c.currentUser.Some? then Step(cleared, MarkOffline(store, faults, Me(c)))
    else Step(cleared, store)
  }

  // ---------------------------------------------------------------------------
  // Lemmas

  /** Signing in, going online and logging out again with no storage faults
      leaves the user off the presence list and everyone else on it. */
  lemma OnlineThenLogoutAbsent(c: Client, store: Store)
    requires c.loggedIn && c.currentUser.Some?
    requires OnlineKey !in store || store[OnlineKey].NameList?
    ensures var s1 := MarkOnline(c, store, NoFaults);
            var r := Logout(s1.client, s1.store, NoFaults);
            && Me(c) !in Listed(r.store)
            && forall x :: x != Me(c) ==> (x in Listed(r.store) <==> x in Listed(store))
  {
    var s1 := MarkOnline(c, store, NoFaults);
    assert s1.client.loggedIn && s1.client.currentUser == c.currentUser;
    assert OnlineKey in s1.store && s1.store[OnlineKey].NameList?;
  }

  /** A second logout finds no signed-in user and writes nothing. */
  lemma LogoutTwiceWritesOnce(c: Client, store: Store, faults: Faults, faults': Faults)
    ensures var r1 := Logout(c, store, faults);
            Logout(r1.client, r1.store, faults') == r1
  {
  }

  /** Each handler writes only records of the shape their key family holds,
      so a store that starts well typed stays well typed, whatever faults
      occur. */
  lemma CreateAccountKeepsWellTyped(c: Client, store: Store, faults: Faults, now: string)
    requires WellTyped(store)
    ensures WellTyped(CreateAccount(c, store, faults, now).store)
  {
    var key := UserKey(c.forms.form.name);
    KeyFamiliesDisjoint(key);
    var r := CreateAccount(c, store, faults, now);
    if r.client.error.None? {
      SetKeepsWellTyped(store, faults, key, UserRecord(r.client.currentUser.value));
    }
  }

  lemma MarkOnlineKeepsWellTyped(c: Client, store: Store, faults: Faults)
    requires c.currentUser.Some? && WellTyped(store)
    ensures WellTyped(MarkOnline(c, store, faults).store)
  {
    KeyFamiliesDisjoint(OnlineKey);
    var r := MarkOnline(c, store, faults);
    if r.store != store {
      SetKeepsWellTyped(store, NoFaults, OnlineKey, NameList(Listed(store) + [Me(c)]));
    }
  }

  lemma LogoutKeepsWellTyped(c: Client, store: Store, faults: Faults)
    requires WellTyped(store)
    ensures WellTyped(Logout(c, store, faults).store)
  {
    KeyFamiliesDisjoint(OnlineKey);
    if c.loggedIn && c.currentUser.Some? && LeaveWrites(store, faults) {
      SetKeepsWellTyped(store, NoFaults, OnlineKey, NameList(Without(Listed(store), Me(c))));
    }
  }

  lemma SendMessageKeepsWellTyped(c: Client, store: Store, faults: Faults, id: int, now: int)
    requires c.currentUser.Some? && WellTyped(store)
    ensures WellTyped(SendMessage(c, store, faults, id, now).store)
  {
    var ch := c.chat.activeChannel;
    KeyFamiliesDisjoint(MessagesKey(ch));
    if !Blank(c.chat.messageInput) {
      var log := CachedLog(c.chat, ch) + [Compose(c, id, now)];
      assert MessagesKey(ch) != OnlineKey;
      SetKeepsWellTyped(store, faults, MessagesKey(ch), MessageLog(log));
    }
  }

  /** In a well-typed store the presence record, when present, is a list, so
      `markUserOffline` followed by `loadOnlineUsers`, with no faults, shows
      the list without the user whenever the record exists. */
  lemma WellTypedLogoutThenLoad(c: Client, viewer: Client, store: Store)
    requires c.loggedIn && c.currentUser.Some? && viewer.currentUser.Some? && WellTyped(store)
    requires OnlineKey in store
    ensures var r := Logout(c, store, NoFaults);
            Me(c) !in LoadOnlineUsers(viewer, r.store, NoFaults).chat.onlineUsers || Me(c) == Me(viewer)
  {
    assert ShapeFits(OnlineKey, store[OnlineKey]);
  }
}
