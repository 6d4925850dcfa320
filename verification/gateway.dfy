/** The storage service as the client sees it: `get` returns the stored value,
    nothing, or throws; `set` overwrites or throws. There is no compare-and-swap.
    Which calls throw is supplied by the environment as `Faults`. */
module Gateway {
  import opened Records

  type Store = map<string, Value>

  /** The keys whose `get` and whose `set` throw during one handler run. A
      `set` that throws leaves the stored value as it was. */
  datatype Faults = Faults(readFails: set<string>, writeFails: set<string>)

  const NoFaults: Faults := Faults({}, {})

  /** What one `get` returned. */
  datatype Fetch = Failed | Missing | Found(value: Value)

  function Get(store: Store, faults: Faults, key: string): (f: Fetch)
    ensures f.Failed? <==> key in faults.readFails
    ensures f.Missing? <==> key !in faults.readFails && key !in store
    ensures f.Found? ==> key in store && f.value == store[key]
  {
    if key in faults.readFails then Failed
    else if key in store then Found(store[key])
    else Missing
  }

  /** What one `set` did: the store afterwards and whether the call returned. */
  datatype Write = Write(store: Store, ok: bool)

  function Set(store: Store, faults: Faults, key: string, v: Value): (w: Write)
    ensures w.ok <==> key !in faults.writeFails
    ensures w.ok ==> w.store == store[key := v]
    ensures !w.ok ==> w.store == store
  {
    if key in faults.writeFails then Write(store, false)
    else Write(store[key := v], true)
  }

  /** The shape each key family holds when only this client writes it. */
  predicate ShapeFits(k: string, v: Value) {
    && (HasPrefix(k, UserPrefix) ==> v.UserRecord?)
    && (HasPrefix(k, MessagesPrefix) ==> v.MessageLog?)
    && (k == OnlineKey ==> v.NameList?)
  }

  predicate WellTyped(store: Store) {
    forall k :: k in store ==> ShapeFits(k, store[k])
  }

  /** Writing a record of the shape its key family expects keeps the store
      well typed, whether or not the write goes through. */
  lemma SetKeepsWellTyped(store: Store, faults: Faults, key: string, v: Value)
    requires WellTyped(store) && ShapeFits(key, v)
    ensures WellTyped(Set(store, faults, key, v).store)
  {
  }
}
