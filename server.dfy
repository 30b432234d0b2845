/**
 * The hub's shared state and its connection handlers
 * (src/lib/server/websocket.js:39-136): the `clients` Map, mutated in place by
 * the `message` and `close` handlers of every admitted connection.
 */
module Server {
  import opened Wrappers
  import opened Conflict
  import opened Registry
  import opened Events
  import Auth

  class Hub {
    /** The configured token, fixed when the module loads. */
    const authToken: Option<string>

    /** The `clients` Map: keys in insertion order, and the entries. */
    var order: seq<ClientId>
    var table: map<ClientId, Entry>

    /** The connections that passed the token check and so have handlers installed. */
    ghost var admitted: set<ConnId>

    function State(): Registry
      reads this
    {
      Registry(order, table)
    }

    /** Every entry is bound to an admitted connection. */
    ghost predicate Valid()
      reads this
    {
      State().Valid() && forall id :: id in table ==> table[id].ws in admitted
    }

    constructor (env: Option<string>)
      ensures Valid()
      ensures authToken == Auth.ConfiguredToken(env)
      ensures State() == Empty && admitted == {}
    {
      authToken := Auth.ConfiguredToken(env);
      order := [];
      table := map[];
      admitted := {};
    }

    /** Setting a key of the Map in place. */
    method Set(id: ClientId, e: Entry)
      modifies this
      ensures State() == old(State()).Set(id, e)
      ensures admitted == old(admitted)
    {
      if id !in table {
        order := order + [id];
      }
      table := table[id := e];
    }

    /**
     * The connection handler's token check. A refused connection gets no
     * handlers and leaves the registry alone; since it was never bound to an
     * entry, no entry is bound to it now either.
     */
    method OnConnection(conn: ConnId, query: Option<string>, header: Option<string>) returns (ok: bool)
      requires Valid() && conn !in admitted
      modifies this`admitted
      ensures Valid()
      ensures ok == Auth.Authorized(authToken, query, header)
      ensures admitted == if ok then old(admitted) + {conn} else old(admitted)
      ensures State() == old(State())
      ensures !ok ==> forall id :: id in table ==> table[id].ws != conn
    {
      ok := Auth.Authorized(authToken, query, header);
      if ok {
        admitted := admitted + {conn};
      }
    }

    /**
     * A `detection-data` frame from `sender`; `open` is the set of connections
     * whose ready state is open at that moment.
     */
    method OnDetection(sender: ConnId, open: set<ConnId>, clientId: ClientId, payload: Value, now: Instant)
      returns (out: seq<Output>)
      requires Valid() && sender in admitted
      modifies this
      ensures Valid() && admitted == old(admitted)
      ensures Transition(State(), out) == Detect(old(State()), sender, open, clientId, payload, now)
    {
      out := [];
      var id := clientId;
      if id in table {
        var existing := table[id];
        if existing.ws != sender && existing.ws in open {
          var suffix;
          suffix, id := ResolveConflict(clientId, table.Keys);
          if sender in open {
            out := [IdReassignment(id)];
          }
        }
      }
      var prev := if id in table then table[id].captures else [];
      ghost var before := State();
      DetectValid(before, sender, open, clientId, payload, now);
      Set(id, Entry(sender, payload, now, if clientId != id then Some(clientId) else None, prev));
      var clientData := BuildSnapshot(State());
      out := out + [ClientsUpdate(clientData)];
    }

    /** A `capture` frame from `sender`; `nowIso` is the current time as ISO text. */
    method OnCapture(sender: ConnId, clientId: ClientId, image: Value, detection: Value, location: Value,
                     timestamp: Option<Value>, now: Instant, nowIso: Value)
      returns (out: seq<Output>)
      requires Valid() && sender in admitted
      modifies this
      ensures Valid() && admitted == old(admitted)
      ensures Transition(State(), out) ==
        RecordCapture(old(State()), sender, clientId, Capture(image, detection, location, timestamp.GetOr(nowIso)), now)
    {
      var entry := if clientId in table then table[clientId] else Entry(sender, EmptyObject, now, None, []);
      var captures := AppendBounded(entry.captures, Capture(image, detection, location, timestamp.GetOr(nowIso)));
      entry := entry.(captures := captures);
      entry := entry.(ws := sender);
      entry := entry.(lastUpdated := now);
      Set(clientId, entry);
      var clientData := BuildSnapshot(State());
      out := [ClientsUpdate(clientData)];
    }

    /** The message handler: dispatch on the frame's `type`; other frames do nothing. */
    method OnMessage(sender: ConnId, open: set<ConnId>, msg: Message, now: Instant, nowIso: Value)
      returns (out: seq<Output>)
      requires Valid() && sender in admitted
      modifies this
      ensures Valid() && admitted == old(admitted)
      ensures Transition(State(), out) == Step(old(State()), sender, open, msg, now, nowIso)
    {
      match msg
      case DetectionData(id, payload) =>
        out := OnDetection(sender, open, id, payload, now);
      case CaptureData(id, image, detection, location, timestamp) =>
        out := OnCapture(sender, id, image, detection, location, timestamp, now, nowIso);
      case Other =>
        out := [];
    }

    /** The close handler: delete the first entry bound to `conn`, then broadcast. */
    method OnClose(conn: ConnId) returns (out: seq<Output>)
      requires Valid()
      modifies this
      ensures Valid() && admitted == old(admitted)
      ensures Transition(State(), out) == Close(old(State()), conn)
    {
      var i := 0;
      while i < |order|
        invariant 0 <= i <= |order|
        invariant State() == old(State())
        invariant forall j :: 0 <= j < i ==> table[order[j]].ws != conn
      {
        var id := order[i];
        if table[id].ws == conn {
          ghost var before := State();
          RemoveAtValid(before, i);
          order := order[..i] + order[i + 1..];
          table := table - {id};
          var clientData := BuildSnapshot(State());
          out := [ClientsUpdate(clientData)];
          return;
        }
        i := i + 1;
      }
      out := [];
    }
  }
}
