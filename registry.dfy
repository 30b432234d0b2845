/**
 * The process-wide client registry of src/lib/server/websocket.js: a
 * JavaScript `Map` from client identity to entry, kept here as its insertion
 * order (`order`) beside its key/value table (`table`), with the JSON
 * snapshot broadcast as `clients-update` and the bounded capture history.
 */
module Registry {
  import opened Wrappers
  import Conflict

  type ClientId = Conflict.ClientId

  /** A physical connection, compared by identity as the source compares `ws` objects. */
  type ConnId = nat

  /** A JSON value the hub stores and forwards without looking inside (its text). */
  type Value = string

  /** A `Date` the hub stamps on an entry; never inspected. */
  type Instant = int

  /** The `{}` a capture-created entry gets as its detection payload. */
  const EmptyObject: Value := "{}"

  /** The capture history keeps at most this many captures. */
  const MaxCaptures: nat := 20

  datatype Capture = Capture(image: Value, detection: Value, location: Value, timestamp: Value)

  datatype Entry = Entry(
    ws: ConnId,
    data: Value,
    lastUpdated: Instant,
    originalId: Option<ClientId>,
    captures: seq<Capture>)

  /** What the snapshot shows of an entry: its payload with its captures added, no connection. */
  datatype View = View(data: Value, captures: seq<Capture>)

  function ViewOf(e: Entry): View {
    View(e.data, e.captures)
  }

  datatype Registry = Registry(order: seq<ClientId>, table: map<ClientId, Entry>) {

    /** The Map's shape (each key once, in insertion order) and the capture bound. */
    ghost predicate Valid() {
      && (forall i, j :: 0 <= i < j < |order| ==> order[i] != order[j])
      && (forall id :: id in table <==> id in order)
      && (forall id :: id in table ==> |table[id].captures| <= MaxCaptures)
    }

    /** The Map's `set`: a new key goes last; an existing key keeps its position. */
    function Set(id: ClientId, e: Entry): (r: Registry)
      ensures r.table.Keys == table.Keys + {id} && r.table[id] == e
      ensures id in table ==> r.order == order
    {
      Registry(if id in table then order else order + [id], table[id := e])
    }

    /** The Map's `delete` of the key at position `i` of the iteration order. */
    function RemoveAt(i: nat): (r: Registry)
      requires i < |order|
      ensures r.table.Keys == table.Keys - {order[i]}
      ensures |r.order| == |order| - 1
    {
      Registry(order[..i] + order[i + 1..], table - {order[i]})
    }
  }

  const Empty: Registry := Registry([], map[])

  /** `set` leaves every other key's entry alone, and a new key goes to the end of the order. */
  lemma SetFrame(r: Registry, id: ClientId, e: Entry)
    ensures forall k :: k in r.table && k != id ==> r.Set(id, e).table[k] == r.table[k]
    ensures id !in r.table ==> r.Set(id, e).order == r.order + [id]
  {
  }

  /** `delete` leaves every remaining entry unchanged. */
  lemma RemoveAtFrame(r: Registry, i: nat)
    requires i < |r.order|
    ensures forall k :: k in r.RemoveAt(i).table ==> r.RemoveAt(i).table[k] == r.table[k]
  {
  }

  lemma SetValid(r: Registry, id: ClientId, e: Entry)
    requires r.Valid() && |e.captures| <= MaxCaptures
    ensures r.Set(id, e).Valid()
  {
  }

  /** Removing position `i` shifts every later element down by one. */
  lemma RemoveAtShift(o: seq<ClientId>, i: nat, so: seq<ClientId>)
    requires i < |o| && so == o[..i] + o[i + 1..]
    ensures |so| == |o| - 1
    ensures forall j :: 0 <= j < i ==> so[j] == o[j]
    ensures forall j :: i <= j < |so| ==> so[j] == o[j + 1]
  {
  }

  lemma RemoveAtValid(r: Registry, i: nat)
    requires r.Valid() && i < |r.order|
    ensures r.RemoveAt(i).Valid()
    ensures r.RemoveAt(i).table.Keys == r.table.Keys - {r.order[i]}
  {
    var o := r.order;
    var so := o[..i] + o[i + 1..];
    RemoveAtShift(o, i, so);
    forall id | id in r.table && id != o[i]
      ensures id in so
    {
      var j :| 0 <= j < |o| && o[j] == id;
      var j' := if j < i then j else j - 1;
      assert so[j'] == id;
    }
    forall id | id in so
      ensures id in r.table && id != o[i]
    {
      var j :| 0 <= j < |so| && so[j] == id;
      assert o[if j < i then j else j + 1] == id;
    }
  }

  /** The last (at most) `MaxCaptures` elements of `s`, in order. */
  function Retained(s: seq<Capture>): (r: seq<Capture>)
    ensures |r| == if |s| <= MaxCaptures then |s| else MaxCaptures
  {
    if |s| <= MaxCaptures then s else s[|s| - MaxCaptures..]
  }

  /**
   * The new capture is pushed onto the history, then the oldest capture is
   * shifted off while more than 20 remain (src/lib/server/websocket.js:109-115).
   */
  method AppendBounded(captures: seq<Capture>, c: Capture) returns (r: seq<Capture>)
    ensures |r| == if |captures| + 1 <= MaxCaptures then |captures| + 1 else MaxCaptures
    ensures r == (captures + [c])[|captures| + 1 - |r|..]
    ensures r[|r| - 1] == c
    ensures r == Retained(captures + [c])
  {
    ghost var full := captures + [c];
    r := captures + [c];
    while |r| > MaxCaptures
      invariant |r| <= |full| && (|r| >= MaxCaptures || r == full)
      invariant r == full[|full| - |r|..]
    {
      r := r[1..];
    }
  }

  /**
   * The identity that never shows in a snapshot. The snapshot is a plain
   * JavaScript object, and assigning to its `__proto__` key calls the
   * inherited prototype setter instead of creating an own property, so
   * serialisation drops it.
   */
  const ProtoKey: ClientId := "__proto__"

  /** The `clients-update` payload: every identity but `ProtoKey` mapped to its view. */
  function Snapshot(table: map<ClientId, Entry>): (s: map<ClientId, View>)
    ensures s.Keys == table.Keys - {ProtoKey}
  {
    map id | id in table && id != ProtoKey :: ViewOf(table[id])
  }

  /**
   * The loop of the broadcast routine that fills the outgoing object
   * (src/lib/server/websocket.js:162-165), walking the registry in order; an
   * assignment under `ProtoKey` adds no key.
   */
  method BuildSnapshot(r: Registry) returns (clientData: map<ClientId, View>)
    requires r.Valid()
    ensures clientData.Keys == r.table.Keys - {ProtoKey}
    ensures forall id :: id in clientData ==> clientData[id] == View(r.table[id].data, r.table[id].captures)
    ensures clientData == Snapshot(r.table)
  {
    clientData := map[];
    for i := 0 to |r.order|
      invariant forall id :: id in clientData <==> id in r.order[..i] && id != ProtoKey
      invariant forall id :: id in clientData ==> id in r.table && clientData[id] == ViewOf(r.table[id])
    {
      var id := r.order[i];
      assert r.order[..i + 1] == r.order[..i] + [id];
      if id != ProtoKey {
        clientData := clientData[id := ViewOf(r.table[id])];
      }
    }
    assert r.order[..|r.order|] == r.order;
  }

  /** Two registries that agree on keys, payloads and captures give the same snapshot. */
  lemma SnapshotHidesConnections(t: map<ClientId, Entry>, u: map<ClientId, Entry>)
    requires t.Keys == u.Keys
    requires forall id :: id in t ==> t[id].data == u[id].data && t[id].captures == u[id].captures
    ensures Snapshot(t) == Snapshot(u)
  {
  }

  /**
   * The position of the first entry, from position `i` on, bound to `conn`
   * (the close handler's scan over the Map's entries).
   */
  function FirstBoundFrom(r: Registry, conn: ConnId, i: nat): (k: Option<nat>)
    requires r.Valid() && i <= |r.order|
    ensures k.Some? ==>
      && i <= k.value < |r.order|
      && r.table[r.order[k.value]].ws == conn
      && forall j :: i <= j < k.value ==> r.table[r.order[j]].ws != conn
    ensures k.None? ==> forall j :: i <= j < |r.order| ==> r.table[r.order[j]].ws != conn
    decreases |r.order| - i
  {
    if i == |r.order| then None
    else if r.table[r.order[i]].ws == conn then Some(i)
    else FirstBoundFrom(r, conn, i + 1)
  }

  function FirstBound(r: Registry, conn: ConnId): (k: Option<nat>)
    requires r.Valid()
  {
    FirstBoundFrom(r, conn, 0)
  }
}
