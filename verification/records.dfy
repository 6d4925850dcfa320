/** The records the client keeps in the shared key-value store, and the key
    scheme under which it files them. */
module Records {
  import opened Text

  datatype Option<T> = None | Some(value: T)

  /** An account as written at sign-up. The password is kept as entered. */
  datatype Account = Account(
    name: string,
    grade: string,
    teacher: string,
    school: string,
    password: string,
    createdAt: string)

  /** A channel message. `id` and `timestamp` are both read from the clock when
      the message is sent; the timestamp is kept here as milliseconds since the
      epoch, which is what the ISO-8601 text denotes. */
  datatype Message = Message(
    id: int,
    user: string,
    text: string,
    timestamp: int,
    channel: string)

  datatype Channel = Channel(id: string, name: string, icon: string)

  /** A stored value, after its JSON text is parsed. */
  datatype Value =
    | UserRecord(account: Account)
    | MessageLog(log: seq<Message>)
    | NameList(names: seq<string>)

  const UserPrefix: string := "user:"
  const MessagesPrefix: string := "messages:"
  const OnlineKey: string := "online-users"

  predicate HasPrefix(k: string, p: string) {
    |p| <= |k| && k[..|p|] == p
  }

  /** `user:` followed by the lower-cased, trimmed name. */
  function UserKey(name: string): (k: string)
    ensures HasPrefix(k, UserPrefix)
  {
    UserPrefix + Normalize(name)
  }

  function MessagesKey(channel: string): (k: string)
    ensures HasPrefix(k, MessagesPrefix)
  {
    MessagesPrefix + channel
  }

  /** Two names share an account key exactly when they normalize alike. */
  lemma UserKeyInjective(a: string, b: string)
    ensures UserKey(a) == UserKey(b) <==> Normalize(a) == Normalize(b)
  {
    if UserKey(a) == UserKey(b) {
      assert Normalize(a) == UserKey(a)[|UserPrefix|..];
    }
  }

  /** The three key families never overlap, so writing one kind of record never
      clobbers another kind. */
  lemma KeyFamiliesDisjoint(k: string)
    ensures !(HasPrefix(k, UserPrefix) && HasPrefix(k, MessagesPrefix))
    ensures !HasPrefix(OnlineKey, UserPrefix) && !HasPrefix(OnlineKey, MessagesPrefix)
  {
    assert HasPrefix(k, UserPrefix) ==> k[0] == 'u';
    assert HasPrefix(k, MessagesPrefix) ==> k[0] == 'm';
    assert OnlineKey[0] != UserPrefix[0] && OnlineKey[0] != MessagesPrefix[0];
  }
}
