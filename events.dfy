/**
 * The three inbound events of src/lib/server/websocket.js as transitions on
 * the registry, with what each sends: the `id-reassignment` notice to the
 * sender and the `clients-update` broadcast of the new snapshot.
 */
module Events {
  import opened Wrappers
  import opened Conflict
  import opened Registry

  /** An inbound frame, already decoded; `Other` is any other or malformed frame. */
  datatype Message =
    | DetectionData(clientId: ClientId, payload: Value)
    | CaptureData(clientId: ClientId, image: Value, detection: Value, location: Value, timestamp: Option<Value>)
    | Other

  /** What the hub sends during a step, in order. */
  datatype Output =
    | IdReassignment(newClientId: ClientId)
    | ClientsUpdate(snapshot: map<ClientId, View>)

  datatype Transition = Transition(next: Registry, out: seq<Output>)

  function Broadcast(r: Registry): Output {
    ClientsUpdate(Snapshot(r.table))
  }

  /** The number of `id-reassignment` notices in `out`. */
  function NoticeCount(out: seq<Output>): nat {
    if out == [] then 0
    else NoticeCount(out[..|out| - 1]) + (if out[|out| - 1].IdReassignment? then 1 else 0)
  }

  // ---------------------------------------------------------------------------
  // detection-data (src/lib/server/websocket.js:69-102)

  /** The claim on `id` collides with another connection that is still open. */
  predicate Conflicts(r: Registry, id: ClientId, sender: ConnId, open: set<ConnId>) {
    id in r.table && r.table[id].ws != sender && r.table[id].ws in open
  }

  /** The identity a claim is stored under: the requested one, or on a conflict a fresh rename. */
  function EffectiveId(r: Registry, id: ClientId, sender: ConnId, open: set<ConnId>): (e: ClientId)
    ensures e != id <==> Conflicts(r, id, sender, open)
    ensures e != id ==> e !in r.table
  {
    if Conflicts(r, id, sender, open) then ConflictId(id, LeastFreeSuffix(id, r.table.Keys)) else id
  }

  /** The detection branch: store under the effective identity, notify on a rename, broadcast. */
  function Detect(r: Registry, sender: ConnId, open: set<ConnId>, id: ClientId, payload: Value, now: Instant): (t: Transition)
    ensures t.next.table.Keys == r.table.Keys + {EffectiveId(r, id, sender, open)}
    ensures 1 <= |t.out| <= 2 && t.out[|t.out| - 1] == Broadcast(t.next)
  {
    var eff := EffectiveId(r, id, sender, open);
    var notice := if Conflicts(r, id, sender, open) && sender in open then [IdReassignment(eff)] else [];
    var prev := if eff in r.table then r.table[eff].captures else [];
    var next := r.Set(eff, Entry(sender, payload, now, if id != eff then Some(id) else None, prev));
    Transition(next, notice + [Broadcast(next)])
  }

  /** A claim is renamed exactly on a conflict, to the least free candidate, which is fresh. */
  lemma DetectRenaming(r: Registry, sender: ConnId, open: set<ConnId>, id: ClientId)
    ensures EffectiveId(r, id, sender, open) != id <==> Conflicts(r, id, sender, open)
    ensures Conflicts(r, id, sender, open) ==>
      exists k :: LeastFree(id, r.table.Keys, k) && EffectiveId(r, id, sender, open) == ConflictId(id, k)
    ensures Conflicts(r, id, sender, open) ==> EffectiveId(r, id, sender, open) !in r.table
  {
    if Conflicts(r, id, sender, open) {
      var k := LeastFreeSuffix(id, r.table.Keys);
      assert LeastFree(id, r.table.Keys, k);
    }
  }

  /**
   * A re-send from the holder itself, or a claim on an identity whose holder
   * is no longer open, overwrites that entry where it stands.
   */
  lemma DetectInPlace(r: Registry, sender: ConnId, open: set<ConnId>, id: ClientId, payload: Value, now: Instant)
    requires id in r.table && (r.table[id].ws == sender || r.table[id].ws !in open)
    ensures EffectiveId(r, id, sender, open) == id
    ensures Detect(r, sender, open, id, payload, now).next ==
      Registry(r.order, r.table[id := Entry(sender, payload, now, None, r.table[id].captures)])
    ensures Detect(r, sender, open, id, payload, now).out == [Broadcast(Detect(r, sender, open, id, payload, now).next)]
  {
  }

  /** The entry written under the effective identity. */
  lemma DetectResult(r: Registry, sender: ConnId, open: set<ConnId>, id: ClientId, payload: Value, now: Instant)
    ensures var eff := EffectiveId(r, id, sender, open);
      var t := Detect(r, sender, open, id, payload, now);
      && eff in t.next.table
      && t.next.table[eff].ws == sender
      && t.next.table[eff].data == payload
      && t.next.table[eff].lastUpdated == now
      && t.next.table[eff].originalId == (if Conflicts(r, id, sender, open) then Some(id) else None)
      && t.next.table[eff].captures == (if eff in r.table then r.table[eff].captures else [])
      && (Conflicts(r, id, sender, open) ==> t.next.table[eff].captures == [])
  {
    DetectRenaming(r, sender, open, id);
  }

  /** Every other entry is untouched, nothing is deleted, and order is that of `Map.set`. */
  lemma DetectFrame(r: Registry, sender: ConnId, open: set<ConnId>, id: ClientId, payload: Value, now: Instant)
    ensures var eff := EffectiveId(r, id, sender, open);
      var t := Detect(r, sender, open, id, payload, now);
      && t.next.table.Keys == r.table.Keys + {eff}
      && (forall k :: k in r.table && k != eff ==> t.next.table[k] == r.table[k])
      && t.next.order == (if eff in r.table then r.order else r.order + [eff])
  {
  }

  /** One notice with the new identity, only on a rename to an open sender, and before the broadcast. */
  lemma DetectNotices(r: Registry, sender: ConnId, open: set<ConnId>, id: ClientId, payload: Value, now: Instant)
    ensures var t := Detect(r, sender, open, id, payload, now);
      && |t.out| >= 1
      && t.out[|t.out| - 1] == Broadcast(t.next)
      && NoticeCount(t.out) == (if Conflicts(r, id, sender, open) && sender in open then 1 else 0)
      && forall i :: 0 <= i < |t.out| - 1 ==> t.out[i] == IdReassignment(EffectiveId(r, id, sender, open))
  {
    var t := Detect(r, sender, open, id, payload, now);
    var init := t.out[..|t.out| - 1];
    if Conflicts(r, id, sender, open) && sender in open {
      assert init == [IdReassignment(EffectiveId(r, id, sender, open))];
      assert init[..0] == [];
      assert NoticeCount(init) == 1;
      assert NoticeCount(t.out) == NoticeCount(init) + 0;
    } else {
      assert init == [];
    }
  }

  lemma DetectValid(r: Registry, sender: ConnId, open: set<ConnId>, id: ClientId, payload: Value, now: Instant)
    requires r.Valid()
    ensures Detect(r, sender, open, id, payload, now).next.Valid()
  {
  }

  /** One `detection-data` frame: who sent it, the identity it claims, its payload. */
  datatype Claim = Claim(sender: ConnId, id: ClientId, payload: Value)

  /** The registry after the claims `cs` were handled in order. */
  function DetectAll(r: Registry, open: set<ConnId>, cs: seq<Claim>, now: Instant): Registry {
    if cs == [] then r
    else
      var c := cs[|cs| - 1];
      Detect(DetectAll(r, open, cs[..|cs| - 1], now), c.sender, open, c.id, c.payload, now).next
  }

  /** The most recent claim on `id` in `cs`. */
  function LastClaim(cs: seq<Claim>, id: ClientId): (c: Option<Claim>)
    ensures c.Some? ==> c.value.id == id && c.value in cs
    ensures c.None? ==> forall i :: 0 <= i < |cs| ==> cs[i].id != id
  {
    if cs == [] then None
    else if cs[|cs| - 1].id == id then Some(cs[|cs| - 1])
    else LastClaim(cs[..|cs| - 1], id)
  }

  /** Every identity is claimed by one connection only (distinct identities, or re-sends). */
  ghost predicate OneHolderPerId(cs: seq<Claim>) {
    forall i, j :: 0 <= i < |cs| && 0 <= j < |cs| && cs[i].id == cs[j].id ==> cs[i].sender == cs[j].sender
  }

  /** `r` holds one entry per identity claimed in `cs`, with its latest claim's payload and sender. */
  ghost predicate Reflects(r: Registry, cs: seq<Claim>) {
    && r.Valid()
    && (forall id :: id in r.table <==> LastClaim(cs, id).Some?)
    && (forall id :: id in r.table ==>
          && r.table[id].data == LastClaim(cs, id).value.payload
          && r.table[id].ws == LastClaim(cs, id).value.sender
          && r.table[id].originalId == None)
  }

  /**
   * Starting from an empty registry, claims that never collide leave one
   * entry per claimed identity, holding the latest payload for it, bound to
   * its sender, and never renamed.
   */
  lemma {:induction false} DetectAllLastWins(open: set<ConnId>, cs: seq<Claim>, now: Instant)
    requires OneHolderPerId(cs)
    ensures Reflects(DetectAll(Empty, open, cs, now), cs)
  {
    if cs != [] {
      var init := cs[..|cs| - 1];
      var c := cs[|cs| - 1];
      var r0 := DetectAll(Empty, open, init, now);
      assert OneHolderPerId(init) by {
        forall i, j | 0 <= i < |init| && 0 <= j < |init| && init[i].id == init[j].id
          ensures init[i].sender == init[j].sender
        {
          assert init[i] == cs[i] && init[j] == cs[j];
        }
      }
      DetectAllLastWins(open, init, now);
      if c.id in r0.table {
        var prior := LastClaim(init, c.id).value;
        var i :| 0 <= i < |init| && init[i] == prior;
        assert cs[i] == prior;
      }
      assert init + [c] == cs;
      ReflectsStep(r0, init, c, open, now);
    }
  }

  /** One more claim, by the identity's holder or on a new identity, keeps `Reflects`. */
  lemma ReflectsStep(r0: Registry, init: seq<Claim>, c: Claim, open: set<ConnId>, now: Instant)
    requires Reflects(r0, init)
    requires c.id in r0.table ==> r0.table[c.id].ws == c.sender
    ensures Reflects(Detect(r0, c.sender, open, c.id, c.payload, now).next, init + [c])
  {
    var cs := init + [c];
    assert cs[..|cs| - 1] == init;
    var e := Entry(c.sender, c.payload, now, None, if c.id in r0.table then r0.table[c.id].captures else []);
    var r := Detect(r0, c.sender, open, c.id, c.payload, now).next;
    DetectWithoutConflict(r0, c.sender, open, c.id, c.payload, now);
    SetValid(r0, c.id, e);
    forall id
      ensures LastClaim(cs, id) == if id == c.id then Some(c) else LastClaim(init, id)
    {
    }
    forall id | id in r.table
      ensures r.table[id].data == LastClaim(cs, id).value.payload
      ensures r.table[id].ws == LastClaim(cs, id).value.sender
      ensures r.table[id].originalId == None
    {
      if id != c.id {
        assert r.table[id] == r0.table[id];
      }
    }
  }

  /** Without a conflict, a detection is a plain `set` under the requested identity. */
  lemma DetectWithoutConflict(r: Registry, sender: ConnId, open: set<ConnId>, id: ClientId, payload: Value, now: Instant)
    requires !Conflicts(r, id, sender, open)
    ensures Detect(r, sender, open, id, payload, now).next ==
      r.Set(id, Entry(sender, payload, now, None, if id in r.table then r.table[id].captures else []))
  {
  }

  /**
   * The end-to-end exchange: `drone1` is registered by one connection; a
   * second open connection claiming it is told `drone1-conflict-1` and both
   * identities are then broadcast.
   */
  lemma DroneConflictExample(c1: ConnId, c2: ConnId, p: Value, q: Value, t1: Instant, t2: Instant)
    requires c1 != c2
    ensures var s1 := Detect(Empty, c1, {c1, c2}, "drone1", p, t1);
      && s1.out == [ClientsUpdate(map["drone1" := View(p, [])])]
      && var s2 := Detect(s1.next, c2, {c1, c2}, "drone1", q, t2);
      && s2.out == [
           IdReassignment("drone1-conflict-1"),
           ClientsUpdate(map["drone1" := View(p, []), "drone1-conflict-1" := View(q, [])])]
      && s2.next.order == ["drone1", "drone1-conflict-1"]
      && s2.next.table.Keys == {"drone1", "drone1-conflict-1"}
      && s2.next.table["drone1"] == s1.next.table["drone1"]
      && s2.next.table["drone1-conflict-1"].originalId == Some("drone1")
  {
    var s1 := Detect(Empty, c1, {c1, c2}, "drone1", p, t1);
    assert s1.next.table.Keys == {"drone1"};
    assert Snapshot(s1.next.table) == map["drone1" := View(p, [])];
    assert Decimal.FromNat(1) == "1";
    var renamed := ConflictId("drone1", 1);
    assert renamed == "drone1-conflict-1";
    assert LeastFree("drone1", {"drone1"}, 1);
    LeastFreeUnique("drone1", {"drone1"}, 1, LeastFreeSuffix("drone1", {"drone1"}));
    var s2 := Detect(s1.next, c2, {c1, c2}, "drone1", q, t2);
    assert EffectiveId(s1.next, "drone1", c2, {c1, c2}) == renamed;
    assert s2.next.table.Keys == {"drone1", renamed};
    assert Snapshot(s2.next.table) == map["drone1" := View(p, []), renamed := View(q, [])];
  }

  /**
   * A renamed client that keeps sending under its old identity while the
   * first holder stays open gets a fresh rename on every frame: the search
   * skips its own `drone1-conflict-1` entry and settles on `-conflict-2`.
   */
  lemma RenamedClientKeepsForking(c1: ConnId, c2: ConnId, p: Value, q: Value, u: Value, t1: Instant, t2: Instant, t3: Instant)
    requires c1 != c2
    ensures var s1 := Detect(Empty, c1, {c1, c2}, "drone1", p, t1);
      var s2 := Detect(s1.next, c2, {c1, c2}, "drone1", q, t2);
      var s3 := Detect(s2.next, c2, {c1, c2}, "drone1", u, t3);
      && s3.next.table.Keys == {"drone1", "drone1-conflict-1", "drone1-conflict-2"}
      && s3.next.table["drone1-conflict-1"].ws == c2
      && s3.next.table["drone1-conflict-2"].ws == c2
      && s3.out[0] == IdReassignment("drone1-conflict-2")
  {
    var s1 := Detect(Empty, c1, {c1, c2}, "drone1", p, t1);
    assert s1.next.table.Keys == {"drone1"};
    assert Decimal.FromNat(1) == "1";
    var first := ConflictId("drone1", 1);
    assert first == "drone1-conflict-1";
    assert LeastFree("drone1", {"drone1"}, 1);
    LeastFreeUnique("drone1", {"drone1"}, 1, LeastFreeSuffix("drone1", {"drone1"}));
    var s2 := Detect(s1.next, c2, {c1, c2}, "drone1", q, t2);
    assert EffectiveId(s1.next, "drone1", c2, {c1, c2}) == first;
    assert s2.next.table.Keys == {"drone1", first};
    assert Decimal.FromNat(2) == "2";
    var second := ConflictId("drone1", 2);
    assert second == "drone1-conflict-2";
    assert LeastFree("drone1", {"drone1", first}, 2);
    LeastFreeUnique("drone1", {"drone1", first}, 2, LeastFreeSuffix("drone1", {"drone1", first}));
    assert EffectiveId(s2.next, "drone1", c2, {c1, c2}) == second;
  }

  // ---------------------------------------------------------------------------
  // capture (src/lib/server/websocket.js:103-121)

  /** The capture branch: append to the identity's bounded history, creating the entry if needed. */
  function RecordCapture(r: Registry, sender: ConnId, id: ClientId, c: Capture, now: Instant): (t: Transition)
    ensures t.next.table.Keys == r.table.Keys + {id}
    ensures |t.next.table[id].captures| <= MaxCaptures && t.next.table[id].ws == sender
    ensures t.out == [Broadcast(t.next)]
  {
    var base := if id in r.table then r.table[id] else Entry(sender, EmptyObject, now, None, []);
    var next := r.Set(id, base.(captures := Retained(base.captures + [c]), ws := sender, lastUpdated := now));
    Transition(next, [Broadcast(next)])
  }

  /** The entry after a capture: history bounded, newest last; payload and original id kept. */
  lemma CaptureResult(r: Registry, sender: ConnId, id: ClientId, c: Capture, now: Instant)
    ensures var t := RecordCapture(r, sender, id, c, now);
      var prior := if id in r.table then r.table[id].captures else [];
      var n := if |prior| + 1 <= MaxCaptures then |prior| + 1 else MaxCaptures;
      && id in t.next.table
      && t.next.table[id].captures == (prior + [c])[|prior| + 1 - n..]
      && |t.next.table[id].captures| <= MaxCaptures
      && t.next.table[id].captures[|t.next.table[id].captures| - 1] == c
      && t.next.table[id].ws == sender
      && t.next.table[id].lastUpdated == now
      && t.next.table[id].data == (if id in r.table then r.table[id].data else EmptyObject)
      && t.next.table[id].originalId == (if id in r.table then r.table[id].originalId else None)
      && t.out == [Broadcast(t.next)]
  {
  }

  lemma CaptureFrame(r: Registry, sender: ConnId, id: ClientId, c: Capture, now: Instant)
    ensures var t := RecordCapture(r, sender, id, c, now);
      && t.next.table.Keys == r.table.Keys + {id}
      && (forall k :: k in r.table && k != id ==> t.next.table[k] == r.table[k])
      && t.next.order == (if id in r.table then r.order else r.order + [id])
  {
  }

  lemma CaptureValid(r: Registry, sender: ConnId, id: ClientId, c: Capture, now: Instant)
    requires r.Valid()
    ensures RecordCapture(r, sender, id, c, now).next.Valid()
  {
  }

  /** Trimming after every push keeps the same as trimming once at the end. */
  lemma RetainedAppend(s: seq<Capture>, c: Capture)
    ensures Retained(Retained(s) + [c]) == Retained(s + [c])
  {
    if |s| > MaxCaptures {
      var t := s[|s| - MaxCaptures..];
      assert t + [c] == (s + [c])[|s| - MaxCaptures..];
      assert (t + [c])[|t + [c]| - MaxCaptures..] == (s + [c])[|s + [c]| - MaxCaptures..];
    }
  }

  /** The history after the captures `cs` arrived one by one, starting from `s`. */
  function AppendAll(s: seq<Capture>, cs: seq<Capture>): seq<Capture> {
    if cs == [] then s else Retained(AppendAll(s, cs[..|cs| - 1]) + [cs[|cs| - 1]])
  }

  /** Any number of captures leaves exactly the last 20 of the whole history, in arrival order. */
  lemma {:induction false} AppendAllRetains(s: seq<Capture>, cs: seq<Capture>)
    requires |s| <= MaxCaptures
    ensures AppendAll(s, cs) == Retained(s + cs)
  {
    if cs != [] {
      var init := cs[..|cs| - 1];
      var last := cs[|cs| - 1];
      AppendAllRetains(s, init);
      RetainedAppend(s + init, last);
      assert s + init + [last] == s + cs;
    }
  }

  /** The registry after the captures `cs` for `id` arrived from `sender`, in order. */
  function CaptureAll(r: Registry, sender: ConnId, id: ClientId, cs: seq<Capture>, now: Instant): Registry {
    if cs == [] then r
    else RecordCapture(CaptureAll(r, sender, id, cs[..|cs| - 1], now), sender, id, cs[|cs| - 1], now).next
  }

  /** Repeated capture steps for one identity build its history as `AppendAll` does. */
  lemma {:induction false} CaptureAllHistory(r: Registry, sender: ConnId, id: ClientId, cs: seq<Capture>, now: Instant)
    requires cs != []
    ensures var r' := CaptureAll(r, sender, id, cs, now);
      && id in r'.table
      && r'.table[id].captures == AppendAll(if id in r.table then r.table[id].captures else [], cs)
  {
    var init := cs[..|cs| - 1];
    if init != [] {
      CaptureAllHistory(r, sender, id, init, now);
    }
  }

  /** Twenty-five captures into an empty history leave the last twenty; the first five are gone. */
  lemma TwentyFiveCaptures(cs: seq<Capture>)
    requires |cs| == 25
    ensures AppendAll([], cs) == cs[5..]
  {
    AppendAllRetains([], cs);
    assert [] + cs == cs;
  }

  /**
   * Twenty-five capture frames for a new identity leave the last twenty in
   * arrival order in its history.
   */
  lemma TwentyFiveCaptureFrames(sender: ConnId, id: ClientId, cs: seq<Capture>, now: Instant)
    requires |cs| == 25
    ensures CaptureAll(Empty, sender, id, cs, now).table[id].captures == cs[5..]
  {
    CaptureAllHistory(Empty, sender, id, cs, now);
    TwentyFiveCaptures(cs);
  }

  // ---------------------------------------------------------------------------
  // close (src/lib/server/websocket.js:127-136)

  /** The close handler: drop the first entry bound to `conn` and broadcast, if there is one. */
  function Close(r: Registry, conn: ConnId): (t: Transition)
    requires r.Valid()
    ensures t.next.table.Keys <= r.table.Keys
    ensures t.out == [] ==> t.next == r
    ensures t.out != [] ==> t.out == [Broadcast(t.next)] && |t.next.order| == |r.order| - 1
  {
    match FirstBound(r, conn)
    case None => Transition(r, [])
    case Some(i) =>
      var next := r.RemoveAt(i);
      Transition(next, [Broadcast(next)])
  }

  /**
   * A close removes the first entry, in iteration order, bound to the
   * connection, and broadcasts once; with no such entry it changes nothing
   * and sends nothing.
   */
  lemma CloseEffect(r: Registry, conn: ConnId)
    requires r.Valid()
    ensures var t := Close(r, conn);
      && t.next.Valid()
      && ((forall id :: id in r.table ==> r.table[id].ws != conn) ==> t == Transition(r, []))
      && ((exists id :: id in r.table && r.table[id].ws == conn) ==>
            exists i ::
              && 0 <= i < |r.order|
              && r.table[r.order[i]].ws == conn
              && (forall j :: 0 <= j < i ==> r.table[r.order[j]].ws != conn)
              && t.next.order == r.order[..i] + r.order[i + 1..]
              && t.next.table == r.table - {r.order[i]}
              && t.out == [Broadcast(t.next)])
  {
    match FirstBound(r, conn)
    case None =>
      forall id | id in r.table
        ensures r.table[id].ws != conn
      {
        var j :| 0 <= j < |r.order| && r.order[j] == id;
      }
    case Some(i) =>
      RemoveAtValid(r, i);
  }

  /** A close that broadcasts removes exactly one identity and nothing else. */
  lemma CloseOneKey(r: Registry, conn: ConnId)
    requires r.Valid()
    ensures Close(r, conn).out != [] ==> exists k :: k in r.table && Close(r, conn).next.table == r.table - {k}
  {
    CloseEffect(r, conn);
  }

  /**
   * A connection that claimed two identities still holds the later one after
   * it closes: the scan stops at the first match.
   */
  lemma CloseKeepsLaterEntries(r: Registry, conn: ConnId, a: nat, b: nat)
    requires r.Valid() && a < b < |r.order|
    requires r.table[r.order[a]].ws == conn && r.table[r.order[b]].ws == conn
    ensures r.order[b] in Close(r, conn).next.table
    ensures Close(r, conn).next.table[r.order[b]].ws == conn
  {
    var k := FirstBound(r, conn);
    assert k.Some? && k.value <= a;
    RemoveAtValid(r, k.value);
  }

  lemma CloseValid(r: Registry, conn: ConnId)
    requires r.Valid()
    ensures Close(r, conn).next.Valid()
  {
    CloseEffect(r, conn);
  }

  // ---------------------------------------------------------------------------
  // the `message` handler's dispatch

  /** The message handler: dispatch on the frame's kind; a missing capture timestamp becomes `nowIso`. */
  function Step(r: Registry, sender: ConnId, open: set<ConnId>, msg: Message, now: Instant, nowIso: Value): (t: Transition)
    ensures msg.Other? ==> t == Transition(r, [])
    ensures !msg.Other? ==> |t.out| >= 1 && t.out[|t.out| - 1] == Broadcast(t.next)
  {
    match msg
    case DetectionData(id, payload) => Detect(r, sender, open, id, payload, now)
    case CaptureData(id, image, detection, location, timestamp) =>
      RecordCapture(r, sender, id, Capture(image, detection, location, timestamp.GetOr(nowIso)), now)
    case Other => Transition(r, [])
  }
}
