/** The presence list: one shared record under `online-users` holding the
    names of the users who are online. Every change is a read followed by a
    write of the whole list, with nothing to stop another client writing in
    between. */
module Presence {
  import opened Records
  import opened Gateway
  import opened Session

  /** The names the presence record lists; a missing record lists none. */
  function Listed(store: Store): seq<string> {
    if OnlineKey in store && store[OnlineKey].NameList? then store[OnlineKey].names else []
  }

  predicate NoDuplicates(names: seq<string>) {
    forall i, j :: 0 <= i < j < |names| ==> names[i] != names[j]
  }

  /** `users.filter(u => u !== name)` */
  function Without(names: seq<string>, name: string): (r: seq<string>)
    ensures forall x :: x in r <==> x in names && x != name
    ensures |r| <= |names|
    decreases |names|
  {
    if names == [] then []
    else (if names[0] == name then [] else [names[0]]) + Without(names[1..], name)
  }

  /** The list `markUserOnline` decides to write after its read: the read list
      with `name` appended. It writes nothing when the read threw, when the
      name is already listed, or when the record is not a list. */
  function JoinList(f: Fetch, name: string): (p: Option<seq<string>>)
    ensures p.Some? <==> f.Missing? || (f.Found? && f.value.NameList? && name !in f.value.names)
    ensures f.Missing? ==> p == Some([name])
    ensures f.Found? && f.value.NameList? && name !in f.value.names ==> p == Some(f.value.names + [name])
  {
    match f
    case Failed => None
    case Missing => Some([name])
    case Found(v) =>
      if v.NameList? && name !in v.names then Some(v.names + [name]) else None
  }

  /** The write half of `markUserOnline`: store the planned list and, once the
      write has returned, show it locally. */
  function CommitJoin(c: Client, store: Store, faults: Faults, plan: Option<seq<string>>): (r: Step)
    ensures plan.None? || OnlineKey in faults.writeFails ==> r == Step(c, store)
    ensures plan.Some? && OnlineKey !in faults.writeFails ==>
              && r.store == store[OnlineKey := NameList(plan.value)]
              && r.client == c.(chat := c.chat.(onlineUsers := plan.value))
  {
    match plan
    case None => Step(c, store)
    case Some(users) =>
      var w := Set(store, faults, OnlineKey, NameList(users));
      if w.ok then Step(c.(chat := c.chat.(onlineUsers := users)), w.store) else Step(c, store)
  }

  /** `markUserOnline`: add the signed-in user's name to the presence list if
      it is not there yet. */
  function MarkOnline(c: Client, store: Store, faults: Faults): (r: Step)
    requires c.currentUser.Some?
    // the only write appends the user's name to the list that was read
    ensures r.store == store || r.store == store[OnlineKey := NameList(Listed(store) + [Me(c)])]
    ensures r.store != store ==> Me(c) !in Listed(store)
    // a read or a write that throws changes nothing, here or in the store
    ensures OnlineKey in faults.readFails || OnlineKey in faults.writeFails ==> r == Step(c, store)
    // a name already listed causes no write at all
    ensures Me(c) in Listed(store) ==> r == Step(c, store)
    ensures NoDuplicates(Listed(store)) ==> NoDuplicates(Listed(r.store))
    // the local list changes only to what was written
    ensures r.store == store ==> r.client == c
    ensures r.store != store ==> r.client == c.(chat := c.chat.(onlineUsers := Listed(r.store)))
    ensures (&& OnlineKey !in faults.readFails && OnlineKey !in faults.writeFails
             && (OnlineKey !in store || store[OnlineKey].NameList?)) ==>
              Me(c) in Listed(r.store)
  {
    var plan := JoinList(Get(store, faults, OnlineKey), Me(c));
    assert [] + [Me(c)] == [Me(c)];
    assert plan.Some? ==> plan.value == Listed(store) + [Me(c)] && Me(c) !in Listed(store);
    if plan.Some? && NoDuplicates(Listed(store)) then
      NoDuplicatesSnoc(Listed(store), Me(c));
      CommitJoin(c, store, faults, plan)
    else
      CommitJoin(c, store, faults, plan)
  }

  /** `markUserOffline` writes only when a list is stored, can be read, and
      the write goes through. */
  predicate LeaveWrites(store: Store, faults: Faults) {
    && OnlineKey !in faults.readFails && OnlineKey !in faults.writeFails
    && OnlineKey in store && store[OnlineKey].NameList?
  }

  /** `markUserOffline`: remove every occurrence of `name` from the presence
      list. A missing record, a failed read and a failed write change nothing. */
  function MarkOffline(store: Store, faults: Faults, name: string): (r: Store)
    ensures LeaveWrites(store, faults) ==>
              r == store[OnlineKey := NameList(Without(Listed(store), name))] && name !in Listed(r)
    ensures !LeaveWrites(store, faults) ==> r == store
    ensures forall x :: x != name ==> (x in Listed(r) <==> x in Listed(store))
  {
    match Get(store, faults, OnlineKey)
    case Found(v) =>
      // a record that is not a list is left as it was
      if v.NameList? then Set(store, faults, OnlineKey, NameList(Without(v.names, name))).store
      else store
    case _ => store
  }

  /** `loadOnlineUsers`: show the stored list, falling back to the user's own
      name when the record is missing or cannot be read. */
  function LoadOnlineUsers(c: Client, store: Store, faults: Faults): (r: Client)
    requires c.currentUser.Some?
    ensures r == c.(chat := c.chat.(onlineUsers := r.chat.onlineUsers))
    // a readable list is shown as stored
    ensures OnlineKey !in faults.readFails && OnlineKey in store && store[OnlineKey].NameList? ==>
              r.chat.onlineUsers == store[OnlineKey].names
    // a readable record that is not a list shows the user alone
    ensures OnlineKey !in faults.readFails && OnlineKey in store && !store[OnlineKey].NameList? ==>
              r.chat.onlineUsers == [Me(c)]
    ensures OnlineKey in faults.readFails || OnlineKey !in store ==> r.chat.onlineUsers == [Me(c)]
    // fails open: the viewer is missing only when a readable list leaves them out
    ensures Me(c) !in r.chat.onlineUsers ==>
              OnlineKey !in faults.readFails && r.chat.onlineUsers == Listed(store) && Me(c) !in Listed(store)
  {
    match Get(store, faults, OnlineKey)
    case Found(v) =>
      if v.NameList? then c.(chat := c.chat.(onlineUsers := v.names))
      else c.(chat := c.chat.(onlineUsers := [Me(c)]))
    case _ => c.(chat := c.chat.(onlineUsers := [Me(c)]))
  }

  // ---------------------------------------------------------------------------
  // Lemmas

  lemma NoDuplicatesCons(h: string, t: seq<string>)
    ensures NoDuplicates([h] + t) <==> h !in t && NoDuplicates(t)
  {
    if h !in t && NoDuplicates(t) {
      forall i, j | 0 <= i < j < |[h] + t|
        ensures ([h] + t)[i] != ([h] + t)[j]
      {
        if i > 0 {
          assert ([h] + t)[i] == t[i - 1] && ([h] + t)[j] == t[j - 1];
        } else {
          assert ([h] + t)[j] == t[j - 1];
        }
      }
    }
    if NoDuplicates([h] + t) {
      assert forall i :: 0 <= i < |t| ==> t[i] == ([h] + t)[i + 1];
      forall k | 0 <= k < |t|
        ensures t[k] != h
      {
        assert ([h] + t)[0] != ([h] + t)[k + 1];
      }
    }
  }

  /** Appending a name that is not yet listed keeps a list free of duplicates. */
  lemma NoDuplicatesSnoc(names: seq<string>, name: string)
    requires NoDuplicates(names) && name !in names
    ensures NoDuplicates(names + [name])
  {
    forall i, j | 0 <= i < j < |names| + 1
      ensures (names + [name])[i] != (names + [name])[j]
    {
      assert (names + [name])[i] == names[i];
    }
  }

  /** Removal keeps the remaining names in their order: it distributes over
      concatenation. */
  lemma {:induction false} WithoutAppend(a: seq<string>, b: seq<string>, name: string)
    ensures Without(a + b, name) == Without(a, name) + Without(b, name)
    decreases |a|
  {
    if a == [] {
      assert a + b == b;
    } else {
      assert (a + b)[0] == a[0] && (a + b)[1..] == a[1..] + b;
      WithoutAppend(a[1..], b, name);
    }
  }

  /** Removing a name that is not listed changes nothing. */
  lemma {:induction false} WithoutAbsent(names: seq<string>, name: string)
    requires name !in names
    ensures Without(names, name) == names
    decreases |names|
  {
    if names != [] {
      assert names == [names[0]] + names[1..];
      WithoutAbsent(names[1..], name);
    }
  }

  lemma {:induction false} WithoutKeepsNoDuplicates(names: seq<string>, name: string)
    requires NoDuplicates(names)
    ensures NoDuplicates(Without(names, name))
    decreases |names|
  {
    if names != [] {
      assert names == [names[0]] + names[1..];
      NoDuplicatesCons(names[0], names[1..]);
      WithoutKeepsNoDuplicates(names[1..], name);
      if names[0] != name {
        NoDuplicatesCons(names[0], Without(names[1..], name));
      } else {
        assert [] + Without(names[1..], name) == Without(names[1..], name);
      }
    }
  }

  /** Going online and then offline, with no storage faults, gives back the
      list as it was before, provided the user was not listed yet. */
  lemma JoinThenLeaveRestores(c: Client, store: Store)
    requires c.currentUser.Some?
    requires Me(c) !in Listed(store)
    requires OnlineKey !in store || store[OnlineKey].NameList?
    ensures var s1 := MarkOnline(c, store, NoFaults).store;
            Listed(MarkOffline(s1, NoFaults, Me(c))) == Listed(store)
  {
    var s1 := MarkOnline(c, store, NoFaults).store;
    assert Listed(s1) == Listed(store) + [Me(c)];
    WithoutAppend(Listed(store), [Me(c)], Me(c));
    WithoutAbsent(Listed(store), Me(c));
    assert Without([Me(c)], Me(c)) == [];
  }

  /** Whatever the list held before, going online and then offline with no
      storage faults leaves the user's name absent. */
  lemma JoinThenLeaveAbsent(c: Client, store: Store)
    requires c.currentUser.Some?
    requires OnlineKey !in store || store[OnlineKey].NameList?
    ensures var s1 := MarkOnline(c, store, NoFaults).store;
            Me(c) !in Listed(MarkOffline(s1, NoFaults, Me(c)))
  {
  }

  /** Two clients that read the same list and then write in turn: the second
      write replaces the first, so the first user's name is lost. */
  lemma ConcurrentJoinsLoseFirst(a: Client, b: Client, store: Store)
    requires a.currentUser.Some? && b.currentUser.Some? && Me(a) != Me(b)
    requires Me(a) !in Listed(store) && Me(b) !in Listed(store)
    requires OnlineKey !in store || store[OnlineKey].NameList?
    ensures var f := Get(store, NoFaults, OnlineKey);
            var s1 := CommitJoin(a, store, NoFaults, JoinList(f, Me(a))).store;
            var s2 := CommitJoin(b, s1, NoFaults, JoinList(f, Me(b))).store;
            Listed(s2) == Listed(store) + [Me(b)] && Me(a) !in Listed(s2)
  {
  }

  /** Two sessions of the same user racing the same way list the name once. */
  lemma ConcurrentSameJoinListsOnce(a: Client, b: Client, store: Store)
    requires a.currentUser.Some? && b.currentUser.Some? && Me(a) == Me(b)
    requires NoDuplicates(Listed(store)) && Me(a) !in Listed(store)
    requires OnlineKey !in store || store[OnlineKey].NameList?
    ensures var f := Get(store, NoFaults, OnlineKey);
            var s1 := CommitJoin(a, store, NoFaults, JoinList(f, Me(a))).store;
            var s2 := CommitJoin(b, s1, NoFaults, JoinList(f, Me(b))).store;
            Listed(s2) == Listed(store) + [Me(a)] && NoDuplicates(Listed(s2))
  {
  }

  /** After going online with no storage faults, loading the presence list
      always shows the viewer. */
  lemma LoadAfterJoinShowsViewer(c: Client, store: Store)
    requires c.currentUser.Some?
    ensures var r := MarkOnline(c, store, NoFaults);
            Me(c) in LoadOnlineUsers(r.client, r.store, NoFaults).chat.onlineUsers
  {
  }
}
