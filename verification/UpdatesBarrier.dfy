/**
 The barrier that coalesces character updates in the gateway, and why its two consumers end up
 where the raw updates would have taken them.

 Updates are merged per character in a buffer; a tick publishes the buffer in batches.  When a
 publish fails the buffer is kept, so part of it may be published again, merged with later updates.
 */
module UpdatesBarrier {
  import opened Prelude

  datatype Update = Update(id: nat, lvl: Option<nat>, mapId: Option<nat>, area: Option<nat>, zone: Option<nat>)

  function Newer<T>(earlier: Option<T>, later: Option<T>): Option<T> {
    if later.Some? then later else earlier
  }

  /** The later update's fields win; fields it does not carry keep their buffered value. */
  function MergeCharUpdates(earlier: Update, later: Update): Update {
    Update(earlier.id, Newer(earlier.lvl, later.lvl), Newer(earlier.mapId, later.mapId),
           Newer(earlier.area, later.area), Newer(earlier.zone, later.zone))
  }

  // ------------------------------------------------------------ the two consumers' views

  /** What the online-characters cache keeps up to date. */
  datatype OnlineView = OnlineView(zone: nat, level: nat, mapId: nat)

  function Pick(earlier: nat, later: Option<nat>): nat {
    if later.Some? then later.value else earlier
  }

  function ApplyOnline(v: OnlineView, u: Update): OnlineView {
    OnlineView(Pick(v.zone, u.zone), Pick(v.level, u.lvl), Pick(v.mapId, u.mapId))
  }

  /** What the friends cache keeps up to date: the zone, if sent, takes the area's place. */
  datatype FriendView = FriendView(level: nat, area: nat)

  function ApplyFriend(v: FriendView, u: Update): FriendView {
    FriendView(Pick(v.level, u.lvl), if u.zone.Some? then u.zone.value else Pick(v.area, u.area))
  }

  // ------------------------------------------------------------ coalescing

  /** The view of character `id` after a sequence of updates, in order. */
  ghost function After<V>(apply: (V, Update) -> V, v: V, id: nat, updates: seq<Update>): V
    decreases updates
  {
    if updates == [] then v
    else After(apply, if updates[0].id == id then apply(v, updates[0]) else v, id, updates[1..])
  }

  /** A consumer for which merged updates act like the updates themselves, and resending is harmless. */
  ghost predicate Coalesces<V(!new)>(apply: (V, Update) -> V, sendable: Update -> bool) {
    && (forall u, w {:trigger MergeCharUpdates(u, w)} ::
          sendable(u) && sendable(w) && u.id == w.id ==> sendable(MergeCharUpdates(u, w)))
    && (forall v: V, u, w {:trigger apply(v, MergeCharUpdates(u, w))} ::
          sendable(u) && sendable(w) && u.id == w.id ==> apply(v, MergeCharUpdates(u, w)) == apply(apply(v, u), w))
    && (forall v: V, u :: sendable(u) ==> apply(apply(v, u), u) == apply(v, u))
  }

  ghost predicate AnyUpdate(u: Update) {
    true
  }

  /** The producers in the gateway set area and zone together. */
  ghost predicate AreaWithZone(u: Update) {
    u.area.Some? ==> u.zone.Some?
  }

  lemma OnlineCoalesces()
    ensures Coalesces(ApplyOnline, AnyUpdate)
  {
  }

  lemma FriendCoalesces()
    ensures Coalesces(ApplyFriend, AreaWithZone)
  {
  }

  /**
   For the friends cache merging is not harmless for arbitrary updates.  Two updates of one
   character may be merged exactly when the earlier one carries no zone, or the later one carries
   a zone or no area, or its area is that very zone.
   */
  lemma FriendMergeExactly(u: Update, w: Update)
    ensures (forall v :: ApplyFriend(v, MergeCharUpdates(u, w)) == ApplyFriend(ApplyFriend(v, u), w))
            <==> (u.zone.None? || w.zone.Some? || w.area.None? || w.area == u.zone)
  {
    var v := FriendView(0, 0);
    assert ApplyFriend(v, MergeCharUpdates(u, w)).area == ApplyFriend(ApplyFriend(v, u), w).area
      <==> (u.zone.None? || w.zone.Some? || w.area.None? || w.area == u.zone);
  }

  /** An update made by one of the barrier's three entry points: a level, an area with its zone, or a map. */
  ghost predicate FromGateway(u: Update) {
    || (u.lvl.Some? && u.mapId.None? && u.area.None? && u.zone.None?)
    || (u.lvl.None? && u.mapId.None? && u.area.Some? && u.zone.Some?)
    || (u.lvl.None? && u.mapId.Some? && u.area.None? && u.zone.None?)
  }

  // ------------------------------------------------------------ the fields of a view, one by one

  /** The level `now` is that of the last update of `id` that carries one, or else still `before`. */
  ghost predicate LastLevel(updates: seq<Update>, id: nat, before: nat, now: nat) {
    || (now == before && forall i :: 0 <= i < |updates| ==> updates[i].id != id || updates[i].lvl.None?)
    || exists i :: 0 <= i < |updates| && updates[i].id == id && updates[i].lvl == Some(now)
                   && forall j :: i < j < |updates| ==> updates[j].id != id || updates[j].lvl.None?
  }

  lemma LastLevelAppend(updates: seq<Update>, u: Update, id: nat, before: nat, mid: nat)
    requires LastLevel(updates, id, before, mid)
    ensures LastLevel(updates + [u], id, before, if u.id == id && u.lvl.Some? then u.lvl.value else mid)
  {
    var all := updates + [u];
    assert all[|updates|] == u && forall i :: 0 <= i < |updates| ==> all[i] == updates[i];
    if !(u.id == id && u.lvl.Some?) {
      if i :| 0 <= i < |updates| && updates[i].id == id && updates[i].lvl == Some(mid)
              && forall j :: i < j < |updates| ==> updates[j].id != id || updates[j].lvl.None? {
        assert all[i].lvl == Some(mid);
      }
    }
  }

  /** The same for the map. */
  ghost predicate LastMap(updates: seq<Update>, id: nat, before: nat, now: nat) {
    || (now == before && forall i :: 0 <= i < |updates| ==> updates[i].id != id || updates[i].mapId.None?)
    || exists i :: 0 <= i < |updates| && updates[i].id == id && updates[i].mapId == Some(now)
                   && forall j :: i < j < |updates| ==> updates[j].id != id || updates[j].mapId.None?
  }

  lemma LastMapAppend(updates: seq<Update>, u: Update, id: nat, before: nat, mid: nat)
    requires LastMap(updates, id, before, mid)
    ensures LastMap(updates + [u], id, before, if u.id == id && u.mapId.Some? then u.mapId.value else mid)
  {
    var all := updates + [u];
    assert all[|updates|] == u && forall i :: 0 <= i < |updates| ==> all[i] == updates[i];
    if !(u.id == id && u.mapId.Some?) {
      if i :| 0 <= i < |updates| && updates[i].id == id && updates[i].mapId == Some(mid)
              && forall j :: i < j < |updates| ==> updates[j].id != id || updates[j].mapId.None? {
        assert all[i].mapId == Some(mid);
      }
    }
  }

  /** The same for the zone. */
  ghost predicate LastZone(updates: seq<Update>, id: nat, before: nat, now: nat) {
    || (now == before && forall i :: 0 <= i < |updates| ==> updates[i].id != id || updates[i].zone.None?)
    || exists i :: 0 <= i < |updates| && updates[i].id == id && updates[i].zone == Some(now)
                   && forall j :: i < j < |updates| ==> updates[j].id != id || updates[j].zone.None?
  }

  lemma LastZoneAppend(updates: seq<Update>, u: Update, id: nat, before: nat, mid: nat)
    requires LastZone(updates, id, before, mid)
    ensures LastZone(updates + [u], id, before, if u.id == id && u.zone.Some? then u.zone.value else mid)
  {
    var all := updates + [u];
    assert all[|updates|] == u && forall i :: 0 <= i < |updates| ==> all[i] == updates[i];
    if !(u.id == id && u.zone.Some?) {
      if i :| 0 <= i < |updates| && updates[i].id == id && updates[i].zone == Some(mid)
              && forall j :: i < j < |updates| ==> updates[j].id != id || updates[j].zone.None? {
        assert all[i].zone == Some(mid);
      }
    }
  }

  /** What friends see as area: of the last update that carries a zone or an area, the zone if it has one. */
  ghost predicate LastArea(updates: seq<Update>, id: nat, before: nat, now: nat) {
    || (now == before
        && forall i :: 0 <= i < |updates| ==> updates[i].id != id || (updates[i].zone.None? && updates[i].area.None?))
    || exists i :: 0 <= i < |updates| && updates[i].id == id
                   && (updates[i].zone == Some(now) || (updates[i].zone.None? && updates[i].area == Some(now)))
                   && forall j :: i < j < |updates| ==>
                        updates[j].id != id || (updates[j].zone.None? && updates[j].area.None?)
  }

  lemma LastAreaAppend(updates: seq<Update>, u: Update, id: nat, before: nat, mid: nat)
    requires LastArea(updates, id, before, mid)
    ensures LastArea(updates + [u], id, before,
                     if u.id == id && u.zone.Some? then u.zone.value
                     else if u.id == id && u.area.Some? then u.area.value else mid)
  {
    var all := updates + [u];
    assert all[|updates|] == u && forall i :: 0 <= i < |updates| ==> all[i] == updates[i];
    if !(u.id == id && (u.zone.Some? || u.area.Some?)) {
      if i :| 0 <= i < |updates| && updates[i].id == id
              && (updates[i].zone == Some(mid) || (updates[i].zone.None? && updates[i].area == Some(mid)))
              && forall j :: i < j < |updates| ==> updates[j].id != id || (updates[j].zone.None? && updates[j].area.None?) {
        assert all[i] == updates[i];
      }
    }
  }

  /** The fields of the online view after a list of updates. */
  ghost predicate OnlineFields(updates: seq<Update>, id: nat, before: OnlineView, now: OnlineView) {
    && LastLevel(updates, id, before.level, now.level)
    && LastMap(updates, id, before.mapId, now.mapId)
    && LastZone(updates, id, before.zone, now.zone)
  }

  /** The fields of the friends view after a list of updates. */
  ghost predicate FriendFields(updates: seq<Update>, id: nat, before: FriendView, now: FriendView) {
    LastLevel(updates, id, before.level, now.level) && LastArea(updates, id, before.area, now.area)
  }

  /** Folding updates into the online view sets each field by the last update that carries it. */
  lemma {:induction false} OnlineFieldsAreLast(v: OnlineView, id: nat, updates: seq<Update>)
    ensures OnlineFields(updates, id, v, After(ApplyOnline, v, id, updates))
    decreases |updates|
  {
    if updates != [] {
      var n := |updates| - 1;
      var before, u := updates[..n], updates[n];
      var mid := After(ApplyOnline, v, id, before);
      OnlineFieldsAreLast(v, id, before);
      AfterAppend(ApplyOnline, v, id, before, [u]);
      AfterOne(ApplyOnline, mid, id, u);
      LastLevelAppend(before, u, id, v.level, mid.level);
      LastMapAppend(before, u, id, v.mapId, mid.mapId);
      LastZoneAppend(before, u, id, v.zone, mid.zone);
      assert before + [u] == updates;
      hide After, LastLevel, LastMap, LastZone;
    }
  }

  /** And likewise for the friends view. */
  lemma {:induction false} FriendFieldsAreLast(v: FriendView, id: nat, updates: seq<Update>)
    ensures FriendFields(updates, id, v, After(ApplyFriend, v, id, updates))
    decreases |updates|
  {
    if updates != [] {
      var n := |updates| - 1;
      var before, u := updates[..n], updates[n];
      var mid := After(ApplyFriend, v, id, before);
      FriendFieldsAreLast(v, id, before);
      AfterAppend(ApplyFriend, v, id, before, [u]);
      AfterOne(ApplyFriend, mid, id, u);
      LastLevelAppend(before, u, id, v.level, mid.level);
      LastAreaAppend(before, u, id, v.area, mid.area);
      assert before + [u] == updates;
      hide After, LastLevel, LastArea;
    }
  }

  lemma {:induction false} AfterAppend<V>(apply: (V, Update) -> V, v: V, id: nat, before: seq<Update>, after: seq<Update>)
    ensures After(apply, v, id, before + after) == After(apply, After(apply, v, id, before), id, after)
    decreases before
  {
    if before == [] {
      assert before + after == after;
    } else {
      AfterAppend(apply, if before[0].id == id then apply(v, before[0]) else v, id, before[1..], after);
      assert (before + after)[1..] == before[1..] + after;
    }
  }

  /** Updates of other characters do not touch `id`. */
  lemma {:induction false} AfterOthers<V>(apply: (V, Update) -> V, v: V, id: nat, updates: seq<Update>)
    requires forall u :: u in updates ==> u.id != id
    ensures After(apply, v, id, updates) == v
    decreases updates
  {
    if updates != [] {
      AfterOthers(apply, v, id, updates[1..]);
    }
  }

  type Buffer = map<nat, Update>

  ghost predicate Keyed(buffer: Buffer) {
    forall id :: id in buffer ==> buffer[id].id == id
  }

  /** Every update in the list is a buffered one. */
  ghost predicate TakenFrom(updates: seq<Update>, buffer: Buffer) {
    forall u :: u in updates ==> u.id in buffer && buffer[u.id] == u
  }

  /** The buffered update of `id`, if any. */
  ghost function Buffered(buffer: Buffer, id: nat): seq<Update> {
    if id in buffer then [buffer[id]] else []
  }

  /** Publishing buffered updates again, in any part and number, before the buffer changes nothing. */
  lemma {:induction false} ResendHarmless<V(!new)>(apply: (V, Update) -> V, sendable: Update -> bool, v: V, id: nat,
                                                   sent: seq<Update>, buffer: Buffer)
    requires Coalesces(apply, sendable) && Keyed(buffer) && TakenFrom(sent, buffer)
    requires forall k :: k in buffer ==> sendable(buffer[k])
    ensures After(apply, v, id, sent + Buffered(buffer, id)) == After(apply, v, id, Buffered(buffer, id))
    decreases sent
  {
    if sent == [] {
      assert sent + Buffered(buffer, id) == Buffered(buffer, id);
    } else {
      var v' := if sent[0].id == id then apply(v, sent[0]) else v;
      ResendHarmless(apply, sendable, v', id, sent[1..], buffer);
      assert (sent + Buffered(buffer, id))[1..] == sent[1..] + Buffered(buffer, id);
      assert sent[0] in sent;
      AfterBuffered(apply, v', id, buffer);
      AfterBuffered(apply, v, id, buffer);
    }
  }

  lemma AfterBuffered<V>(apply: (V, Update) -> V, v: V, id: nat, buffer: Buffer)
    requires Keyed(buffer)
    ensures After(apply, v, id, Buffered(buffer, id)) == if id in buffer then apply(v, buffer[id]) else v
  {
    if id in buffer {
      AfterOne(apply, v, id, buffer[id]);
    }
  }

  lemma AfterOne<V>(apply: (V, Update) -> V, v: V, id: nat, u: Update)
    ensures After(apply, v, id, [u]) == if u.id == id then apply(v, u) else v
  {
    assert [u][1..] == [];
  }

  function Absorbed(buffer: Buffer, u: Update): Buffer {
    buffer[u.id := if u.id in buffer then MergeCharUpdates(buffer[u.id], u) else u]
  }

  /** Buffering an update is, to a consumer that will get the buffer, the same as applying it. */
  lemma AbsorbActsLikeUpdate<V(!new)>(apply: (V, Update) -> V, sendable: Update -> bool, v: V, id: nat,
                                      buffer: Buffer, u: Update)
    requires Coalesces(apply, sendable) && Keyed(buffer) && sendable(u)
    requires forall k :: k in buffer ==> sendable(buffer[k])
    ensures After(apply, v, id, Buffered(Absorbed(buffer, u), id)) == After(apply, v, id, Buffered(buffer, id) + [u])
  {
    AfterAppend(apply, v, id, Buffered(buffer, id), [u]);
    AfterBuffered(apply, v, id, buffer);
    AfterBuffered(apply, v, id, Absorbed(buffer, u));
    AfterOne(apply, After(apply, v, id, Buffered(buffer, id)), id, u);
  }

  // ------------------------------------------------------------ the history of a run

  /**
   The gateway's side: every raw update so far, everything delivered to the consumers, and the
   buffer.
   */
  datatype Gateway = Gateway(raw: seq<Update>, delivered: seq<Update>, buffer: Buffer)

  ghost predicate UpdateStep(g: Gateway, u: Update, g': Gateway) {
    g' == Gateway(g.raw + [u], g.delivered, Absorbed(g.buffer, u))
  }

  /** A tick that failed: any buffered updates may have been delivered, and the buffer is kept. */
  ghost predicate FailedTick(g: Gateway, g': Gateway) {
    exists sent :: TakenFrom(sent, g.buffer) && g' == g.(delivered := g.delivered + sent)
  }

  /** A tick that succeeded: exactly the buffer was delivered. */
  ghost predicate GoodTick(g: Gateway, g': Gateway) {
    exists sent :: Covers(sent, g.buffer) && g' == g.(delivered := g.delivered + sent, buffer := map[])
  }

  /** The list holds each buffered update exactly once and nothing else. */
  ghost predicate Covers(sent: seq<Update>, buffer: Buffer) {
    && TakenFrom(sent, buffer)
    && (forall id :: id in buffer ==> buffer[id] in sent)
    && (forall i, j :: 0 <= i < j < |sent| ==> sent[i].id != sent[j].id)
  }

  ghost predicate GatewayStep(g: Gateway, g': Gateway) {
    || (exists u :: UpdateStep(g, u, g'))
    || FailedTick(g, g')
    || GoodTick(g, g')
  }

  ghost predicate IsGatewayRun(run: seq<Gateway>) {
    && run != [] && run[0] == Gateway([], [], map[])
    && forall i :: 0 <= i < |run| - 1 ==> GatewayStep(run[i], run[i + 1])
  }

  ghost predicate BufferOk(g: Gateway, sendable: Update -> bool) {
    && Keyed(g.buffer)
    && (forall u :: u in g.raw ==> sendable(u))
    && (forall k :: k in g.buffer ==> sendable(g.buffer[k]))
  }

  /** For every character, what was delivered and then the buffer lead where the raw updates lead. */
  ghost predicate InStep<V(!new)>(apply: (V, Update) -> V, g: Gateway) {
    forall v, id :: After(apply, v, id, g.delivered + Buffered(g.buffer, id)) == After(apply, v, id, g.raw)
  }

  lemma UpdateKeepsInStep<V(!new)>(apply: (V, Update) -> V, sendable: Update -> bool, g: Gateway, u: Update, g': Gateway)
    requires Coalesces(apply, sendable) && BufferOk(g, sendable) && InStep(apply, g) && sendable(u) && UpdateStep(g, u, g')
    ensures BufferOk(g', sendable) && InStep(apply, g')
  {
    forall v, id ensures After(apply, v, id, g'.delivered + Buffered(g'.buffer, id)) == After(apply, v, id, g'.raw) {
      AfterAppend(apply, v, id, g.delivered, Buffered(g'.buffer, id));
      AbsorbActsLikeUpdate(apply, sendable, After(apply, v, id, g.delivered), id, g.buffer, u);
      AfterAppend(apply, v, id, g.delivered, Buffered(g.buffer, id) + [u]);
      assert g.delivered + (Buffered(g.buffer, id) + [u]) == g.delivered + Buffered(g.buffer, id) + [u];
      AfterAppend(apply, v, id, g.delivered + Buffered(g.buffer, id), [u]);
      AfterAppend(apply, v, id, g.raw, [u]);
    }
  }

  lemma DeliveryKeepsInStep<V(!new)>(apply: (V, Update) -> V, sendable: Update -> bool, g: Gateway, sent: seq<Update>)
    requires Coalesces(apply, sendable) && BufferOk(g, sendable) && InStep(apply, g) && TakenFrom(sent, g.buffer)
    ensures InStep(apply, g.(delivered := g.delivered + sent))
  {
    forall v, id ensures After(apply, v, id, g.delivered + sent + Buffered(g.buffer, id)) == After(apply, v, id, g.raw) {
      assert g.delivered + sent + Buffered(g.buffer, id) == g.delivered + (sent + Buffered(g.buffer, id));
      AfterAppend(apply, v, id, g.delivered, sent + Buffered(g.buffer, id));
      ResendHarmless(apply, sendable, After(apply, v, id, g.delivered), id, sent, g.buffer);
      AfterAppend(apply, v, id, g.delivered, Buffered(g.buffer, id));
    }
  }

  /** A list covering the buffer acts on one character exactly like that character's entry. */
  lemma CoverActsLikeEntry<V>(apply: (V, Update) -> V, v: V, id: nat, sent: seq<Update>, buffer: Buffer)
    requires Keyed(buffer) && Covers(sent, buffer)
    ensures After(apply, v, id, sent) == After(apply, v, id, Buffered(buffer, id))
  {
    hide After;
    AfterBuffered(apply, v, id, buffer);
    if id in buffer {
      var i :| 0 <= i < |sent| && sent[i] == buffer[id];
      OnlyHere(sent, buffer, i);
      hide Covers;
      OneAmongOthers(apply, v, id, sent[..i], sent[i], sent[i + 1..]);
      assert sent == sent[..i] + ([sent[i]] + sent[i + 1..]);
    } else {
      AfterOthers(apply, v, id, sent);
    }
  }

  lemma OnlyHere(sent: seq<Update>, buffer: Buffer, i: nat)
    requires Covers(sent, buffer) && i < |sent|
    ensures forall u :: u in sent[..i] || u in sent[i + 1..] ==> u.id != sent[i].id
  {
    forall u | u in sent[..i] ensures u.id != sent[i].id {
      var j :| 0 <= j < i && sent[j] == u;
    }
    forall u | u in sent[i + 1..] ensures u.id != sent[i].id {
      var j :| i < j < |sent| && sent[j] == u;
    }
  }

  /** Of a list in which one update is for `id`, only that one acts. */
  lemma OneAmongOthers<V>(apply: (V, Update) -> V, v: V, id: nat, before: seq<Update>, u: Update, after: seq<Update>)
    requires u.id == id && forall w :: w in before || w in after ==> w.id != id
    ensures After(apply, v, id, before + ([u] + after)) == apply(v, u)
  {
    hide After;
    AfterAppend(apply, v, id, before, [u] + after);
    AfterOthers(apply, v, id, before);
    AfterAppend(apply, v, id, [u], after);
    AfterOne(apply, v, id, u);
    AfterOthers(apply, apply(v, u), id, after);
  }

  lemma GoodTickKeepsInStep<V(!new)>(apply: (V, Update) -> V, g: Gateway, sent: seq<Update>)
    requires Keyed(g.buffer) && InStep(apply, g) && Covers(sent, g.buffer)
    ensures InStep(apply, g.(delivered := g.delivered + sent, buffer := map[]))
  {
    forall v, id ensures After(apply, v, id, g.delivered + sent + Buffered(map[], id)) == After(apply, v, id, g.raw) {
      assert g.delivered + sent + Buffered(map[], id) == g.delivered + sent;
      AfterAppend(apply, v, id, g.delivered, sent);
      CoverActsLikeEntry(apply, After(apply, v, id, g.delivered), id, sent, g.buffer);
      AfterAppend(apply, v, id, g.delivered, Buffered(g.buffer, id));
    }
  }

  lemma {:induction false} RunInStep<V(!new)>(apply: (V, Update) -> V, sendable: Update -> bool, run: seq<Gateway>, k: nat)
    requires Coalesces(apply, sendable) && IsGatewayRun(run) && k < |run|
    requires forall u :: u in run[k].raw ==> sendable(u)
    ensures BufferOk(run[k], sendable) && InStep(apply, run[k])
  {
    if k == 0 {
      assert run[0].delivered == [] && run[0].raw == [];
    } else {
      var g, g' := run[k - 1], run[k];
      assert GatewayStep(g, g');
      forall u | u in g.raw ensures sendable(u) {
        assert u in g'.raw;
      }
      RunInStep(apply, sendable, run, k - 1);
      if u :| UpdateStep(g, u, g') {
        assert u in g'.raw;
        UpdateKeepsInStep(apply, sendable, g, u, g');
      } else if FailedTick(g, g') {
        var sent :| TakenFrom(sent, g.buffer) && g' == g.(delivered := g.delivered + sent);
        DeliveryKeepsInStep(apply, sendable, g, sent);
      } else {
        var sent :| Covers(sent, g.buffer) && g' == g.(delivered := g.delivered + sent, buffer := map[]);
        GoodTickKeepsInStep(apply, g, sent);
      }
    }
  }

  /**
   In every run of updates and ticks, including ticks that fail after some batches, whenever a
   tick has just succeeded the online cache of every tracked character is what the raw updates
   alone, applied one by one in order, would have made it.
   */
  lemma OnlineCacheExact(run: seq<Gateway>, k: nat)
    requires IsGatewayRun(run) && 0 < k < |run| && GoodTick(run[k - 1], run[k])
    ensures forall v, id :: After(ApplyOnline, v, id, run[k].delivered) == After(ApplyOnline, v, id, run[k].raw)
    ensures forall v, id :: OnlineFields(run[k].raw, id, v, After(ApplyOnline, v, id, run[k].delivered))
  {
    forall v, id ensures OnlineFields(run[k].raw, id, v, After(ApplyOnline, v, id, run[k].raw)) {
      OnlineFieldsAreLast(v, id, run[k].raw);
    }
    hide OnlineFields;
    OnlineCoalesces();
    RunInStep(ApplyOnline, AnyUpdate, run, k);
    forall v, id ensures After(ApplyOnline, v, id, run[k].delivered) == After(ApplyOnline, v, id, run[k].raw) {
      assert run[k].delivered + Buffered(run[k].buffer, id) == run[k].delivered;
    }
  }

  /** The same for the friends cache, given that the raw updates come from the barrier's entry points. */
  lemma FriendsCacheExact(run: seq<Gateway>, k: nat)
    requires IsGatewayRun(run) && 0 < k < |run| && GoodTick(run[k - 1], run[k])
    requires forall u :: u in run[k].raw ==> FromGateway(u)
    ensures forall v, id :: After(ApplyFriend, v, id, run[k].delivered) == After(ApplyFriend, v, id, run[k].raw)
    ensures forall v, id :: FriendFields(run[k].raw, id, v, After(ApplyFriend, v, id, run[k].delivered))
  {
    forall v, id ensures FriendFields(run[k].raw, id, v, After(ApplyFriend, v, id, run[k].raw)) {
      FriendFieldsAreLast(v, id, run[k].raw);
    }
    hide FriendFields;
    FriendCoalesces();
    RunInStep(ApplyFriend, AreaWithZone, run, k);
    forall v, id ensures After(ApplyFriend, v, id, run[k].delivered) == After(ApplyFriend, v, id, run[k].raw) {
      assert run[k].delivered + Buffered(run[k].buffer, id) == run[k].delivered;
    }
  }

  // ------------------------------------------------------------ the barrier itself

  const BATCH_HINT: nat := 1000

  /** What becomes of a publish: accepted, lost, or accepted with its confirmation lost. */
  datatype Delivery = Published | Lost | ConfirmationLost

  /** The message bus: `script` decides the coming publishes, which succeed once it runs out. */
  class Producer {
    var script: seq<Delivery>
    var delivered: seq<seq<Update>>

    constructor (script: seq<Delivery>)
      ensures this.script == script && delivered == []
    {
      this.script, delivered := script, [];
    }

    method CharactersUpdates(batch: seq<Update>) returns (ok: bool)
      modifies this
      ensures ok <==> old(script == [] || script[0] == Published)
      ensures delivered == if old(script != [] && script[0] == Lost) then old(delivered) else old(delivered) + [batch]
      ensures script == if old(script) == [] then [] else old(script[1..])
    {
      var fate := Published;
      if script != [] {
        fate, script := script[0], script[1..];
      }
      if fate != Lost {
        delivered := delivered + [batch];
      }
      return fate == Published;
    }
  }

  ghost function Flat(batches: seq<seq<Update>>): seq<Update> {
    if batches == [] then [] else Flat(batches[..|batches| - 1]) + batches[|batches| - 1]
  }

  lemma FlatAppend(batches: seq<seq<Update>>, batch: seq<Update>)
    ensures Flat(batches + [batch]) == Flat(batches) + batch
  {
    assert (batches + [batch])[..|batches|] == batches;
  }

  lemma FlatNothing(batches: seq<seq<Update>>)
    ensures Flat(batches + []) == Flat(batches) + Flat([])
  {
    assert batches + [] == batches;
  }

  lemma {:induction false} FlatConcat(a: seq<seq<Update>>, b: seq<seq<Update>>)
    ensures Flat(a + b) == Flat(a) + Flat(b)
  {
    hide Flat;
    if b == [] {
      FlatNothing(a);
    } else {
      var n := |b| - 1;
      FlatConcat(a, b[..n]);
      assert a + b == a + b[..n] + [b[n]] && b == b[..n] + [b[n]];
      FlatAppend(a + b[..n], b[n]);
      FlatAppend(b[..n], b[n]);
    }
  }

  /** Taking one more buffered update keeps the list a cover of what has been taken. */
  lemma CoverGrows(sent: seq<Update>, upds: Buffer, left: set<nat>, k: nat)
    requires Keyed(upds) && left <= upds.Keys && k in left && Covers(sent, upds - left)
    ensures Covers(sent + [upds[k]], upds - (left - {k}))
  {
    var more := sent + [upds[k]];
    var taken := upds - (left - {k});
    forall u | u in more ensures u.id in taken && taken[u.id] == u {
      if u in sent {
        assert u.id in upds - left;
      }
    }
    forall id | id in taken ensures taken[id] in more {
      if id == k {
        assert more[|sent|] == upds[k];
      } else {
        assert (upds - left)[id] in sent;
      }
    }
    forall i, j | 0 <= i < j < |more| ensures more[i].id != more[j].id {
      if j == |sent| {
        assert sent[i] in sent && sent[i].id in upds - left;
      }
    }
  }

  /** All batches but the last hold exactly 1002 updates, the last at least one. */
  ghost predicate BatchSizes(batches: seq<seq<Update>>) {
    && (forall i :: 0 <= i < |batches| - 1 ==> |batches[i]| == 1002)
    && (batches != [] ==> 0 < |batches[|batches| - 1]| <= 1002)
  }

  /** The publishes that used up the front of `before` all succeeded, or all but the last did. */
  ghost predicate Used(before: seq<Delivery>, after: seq<Delivery>, ok: bool) {
    var n := |before| - |after|;
    && 0 <= n && after == before[n..] && (!ok ==> n > 0)
    && forall i :: 0 <= i < n ==> (before[i] == Published <==> ok || i < n - 1)
  }

  /**
   Publishes the buffered updates, in an arbitrary order, in batches.  On success every buffered
   update is in exactly one batch.  On failure some batches may have been delivered.  It fails exactly
   when a publish fails, and stops there.
   */
  method Send(producer: Producer, upds: Buffer) returns (ok: bool, ghost batches: seq<seq<Update>>)
    requires Keyed(upds)
    modifies producer
    ensures producer.delivered == old(producer.delivered) + batches
    ensures BatchSizes(batches)
    ensures ok ==> Covers(Flat(batches), upds)
    ensures !ok ==> TakenFrom(Flat(batches), upds) && upds != map[]
    ensures Used(old(producer.script), producer.script, ok)
  {
    hide Covers, TakenFrom, Flat, Keyed, Used;
    var bufferSize := BATCH_HINT;
    if |upds| < bufferSize {
      bufferSize := |upds|;
    }
    var buffer: seq<Update> := [];
    var i := 0;
    var left := upds.Keys;
    batches := [];
    NothingTaken(upds);
    NothingUsed(producer.script);
    while left != {}
      invariant left <= upds.Keys && |buffer| == i <= 1001 && (upds == map[] ==> i == 0)
      invariant bufferSize < BATCH_HINT ==> batches == [] && bufferSize == i + |left|
      invariant bufferSize <= BATCH_HINT
      invariant producer.delivered == old(producer.delivered) + batches
      invariant forall b :: b in batches ==> |b| == 1002
      invariant Covers(Flat(batches) + buffer, upds - left)
      invariant Used(old(producer.script), producer.script, true)
      decreases left
    {
      var k :| k in left;
      CoverGrows(Flat(batches) + buffer, upds, left, k);
      assert Flat(batches) + (buffer + [upds[k]]) == Flat(batches) + buffer + [upds[k]];
      left := left - {k};
      buffer := buffer + [upds[k]];
      if i > bufferSize {
        ok, batches := Publish(producer, buffer, old(producer.delivered), batches, upds, left, old(producer.script));
        if !ok {
          return;
        }
        buffer := [];
        i := 0;
        assert Flat(batches) + buffer == Flat(batches);
      } else {
        i := i + 1;
      }
    }
    assert upds - left == upds;
    if |buffer| > 0 {
      ok, batches := Publish(producer, buffer, old(producer.delivered), batches, upds, left, old(producer.script));
    } else {
      assert Flat(batches) + buffer == Flat(batches);
      ok := true;
    }
  }

  /** Publishes one batch and notes whether it reached the consumers. */
  method Publish(producer: Producer, buffer: seq<Update>, ghost base: seq<seq<Update>>, ghost before: seq<seq<Update>>,
                 ghost upds: Buffer, ghost left: set<nat>, ghost script: seq<Delivery>)
    returns (ok: bool, ghost batches: seq<seq<Update>>)
    requires Covers(Flat(before) + buffer, upds - left) && producer.delivered == base + before
    requires Used(script, producer.script, true)
    modifies producer
    ensures batches == before || batches == before + [buffer]
    ensures producer.delivered == base + batches
    ensures ok ==> batches == before + [buffer] && Covers(Flat(batches), upds - left)
    ensures !ok ==> TakenFrom(Flat(batches), upds)
    ensures Used(script, producer.script, ok)
  {
    hide Used, Covers, TakenFrom, Flat;
    ghost var was, fates := producer.delivered, producer.script;
    ok := producer.CharactersUpdates(buffer);
    UsedOneMore(script, fates, producer.script, ok);
    FlatAppend(before, buffer);
    batches := if producer.delivered == was then before else before + [buffer];
    assert base + (before + [buffer]) == base + before + [buffer];
    CoverIsTaken(Flat(batches), upds, left, Flat(before) + buffer);
  }

  lemma UsedOneMore(script: seq<Delivery>, before: seq<Delivery>, after: seq<Delivery>, ok: bool)
    requires Used(script, before, true) && after == (if before == [] then [] else before[1..])
    requires ok <==> before == [] || before[0] == Published
    ensures Used(script, after, ok)
  {
    if before != [] {
      var n := |script| - |before|;
      assert before[0] == script[n] && before[1..] == script[n + 1..];
    }
  }

  lemma NothingUsed(script: seq<Delivery>)
    ensures Used(script, script, true)
  {
  }

  lemma NothingTaken(upds: Buffer)
    ensures Covers(Flat([]) + [], upds - upds.Keys)
  {
    assert Flat([]) + [] == [];
    assert upds - upds.Keys == map[];
  }

  lemma CoverIsTaken(part: seq<Update>, upds: Buffer, left: set<nat>, sent: seq<Update>)
    requires Covers(sent, upds - left) && part <= sent
    ensures TakenFrom(part, upds)
  {
    forall u | u in part ensures u.id in upds && upds[u.id] == u {
      assert u in sent;
    }
  }

  // ------------------------------------------------------------ the main loop

  datatype Event = Arrived(update: Update) | Tick

  ghost function RawUpdates(events: seq<Event>): seq<Update> {
    if events == [] then []
    else RawUpdates(events[..|events| - 1])
         + (if events[|events| - 1].Arrived? then [events[|events| - 1].update] else [])
  }

  /** The gateway step of one event; a tick can fail only while the message bus still has failures to come. */
  ghost predicate Follows(event: Event, g: Gateway, g': Gateway, mayFail: bool) {
    match event
    case Arrived(u) => UpdateStep(g, u, g')
    case Tick => GoodTick(g, g') || (mayFail && FailedTick(g, g'))
  }

  lemma FollowsIsStep(event: Event, g: Gateway, g': Gateway, mayFail: bool)
    requires Follows(event, g, g', mayFail)
    ensures GatewayStep(g, g') && Follows(event, g, g', true)
  {
  }

  /**
   The barrier's loop over its events.  What it does to the message bus is a run of the gateway
   steps above; `buffer` is what is still waiting when the loop is cancelled.
   */
  method Run(producer: Producer, events: seq<Event>) returns (buffer: Buffer, ghost history: seq<Gateway>)
    requires producer.delivered == []
    modifies producer
    ensures IsGatewayRun(history) && |history| == |events| + 1
    ensures forall i :: 0 <= i < |events| ==> Follows(events[i], history[i], history[i + 1], old(producer.script) != [])
    ensures history[|events|] == Gateway(RawUpdates(events), Flat(producer.delivered), buffer)
    ensures forall b :: b in producer.delivered ==> 0 < |b| <= 1002
  {
    hide GatewayStep, Keyed, Flat, Follows;
    buffer := map[];
    history := [Gateway([], [], map[])];
    NothingYet(producer.delivered);
    var n := 0;
    while n < |events|
      invariant 0 <= n <= |events| && Keyed(buffer)
      invariant IsGatewayRun(history) && |history| == n + 1 && (old(producer.script) == [] ==> producer.script == [])
      invariant forall i :: 0 <= i < n ==> Follows(events[i], history[i], history[i + 1], old(producer.script) != [])
      invariant history[n] == Gateway(RawUpdates(events[..n]), Flat(producer.delivered), buffer)
      invariant forall b :: b in producer.delivered ==> 0 < |b| <= 1002
    {
      assert events[..n + 1][..n] == events[..n];
      ghost var g';
      var mayFail := producer.script != [];
      buffer, g' := Turn(producer, buffer, events[n], history[n]);
      FollowsIsStep(events[n], history[n], g', mayFail);
      history := history + [g'];
      n := n + 1;
    }
    assert events[..n] == events;
  }

  lemma NothingYet(batches: seq<seq<Update>>)
    requires batches == []
    ensures Flat(batches) == [] && Keyed(map[])
  {
  }

  /** One turn of the loop: an update is absorbed, or the tick sends the buffer and empties it on success. */
  method Turn(producer: Producer, buffer: Buffer, event: Event, ghost g: Gateway)
    returns (buffer': Buffer, ghost g': Gateway)
    requires Keyed(buffer) && g.buffer == buffer && g.delivered == Flat(producer.delivered)
    requires forall b :: b in producer.delivered ==> 0 < |b| <= 1002
    modifies producer
    ensures Follows(event, g, g', old(producer.script) != []) && Keyed(buffer')
    ensures old(producer.script) == [] ==> producer.script == []
    ensures g' == Gateway(g.raw + (if event.Arrived? then [event.update] else []), Flat(producer.delivered), buffer')
    ensures forall b :: b in producer.delivered ==> 0 < |b| <= 1002
    ensures Used(old(producer.script), producer.script, event.Arrived? || buffer' == map[])
    ensures event.Arrived? ==> producer.script == old(producer.script) && producer.delivered == old(producer.delivered)
  {
    hide Flat, Covers, TakenFrom;
    buffer' := buffer;
    match event {
      case Arrived(u) =>
        buffer' := Absorbed(buffer, u);
        g' := Gateway(g.raw + [u], g.delivered, buffer');
        assert UpdateStep(g, u, g');
      case Tick =>
        ghost var delivered := producer.delivered;
        var ok, batches := Send(producer, buffer);
        FlatConcat(delivered, batches);
        if ok {
          buffer' := map[];
          g' := g.(delivered := g.delivered + Flat(batches), buffer := buffer');
          assert GoodTick(g, g');
        } else {
          g' := g.(delivered := g.delivered + Flat(batches));
          assert FailedTick(g, g');
        }
        assert g.raw + [] == g.raw;
    }
  }

  // ------------------------------------------------------------ the friends cache

  /** The charserver's cache of online players, seen by their friends. */
  class OnlinePlayersCache {
    var online: map<nat, FriendView>

    constructor ()
      ensures online == map[]
    {
      online := map[];
    }

    method PlayerLoggedIn(p: nat, view: FriendView)
      modifies this
      ensures online == old(online)[p := view]
    {
      online := online[p := view];
    }

    method PlayerLoggedOut(p: nat)
      modifies this
      ensures online == old(online) - {p}
    {
      online := online - {p};
    }

    /** Applies one batch; players that are not online are skipped. */
    method HandleCharactersUpdates(updates: seq<Update>)
      modifies this
      ensures online.Keys == old(online.Keys)
      ensures forall id :: id in online ==> online[id] == After(ApplyFriend, old(online)[id], id, updates)
      ensures forall id :: id in online ==> FriendFields(updates, id, old(online)[id], online[id])
    {
      ghost var start := online;
      var i := 0;
      while i < |updates|
        invariant 0 <= i <= |updates| && online.Keys == start.Keys
        invariant forall id :: id in online ==> online[id] == After(ApplyFriend, start[id], id, updates[..i])
      {
        var u := updates[i];
        ghost var before := online;
        if u.id in online {
          var info := online[u.id];
          if u.lvl.Some? {
            info := info.(level := u.lvl.value);
          }
          if u.zone.Some? {
            info := info.(area := u.zone.value);
          } else if u.area.Some? {
            info := info.(area := u.area.value);
          }
          online := online[u.id := info];
        }
        assert updates[..i + 1] == updates[..i] + [u];
        forall id | id in online ensures online[id] == After(ApplyFriend, start[id], id, updates[..i + 1]) {
          AfterAppend(ApplyFriend, start[id], id, updates[..i], [u]);
          AfterOne(ApplyFriend, before[id], id, u);
        }
        i := i + 1;
      }
      assert updates[..i] == updates;
      forall id | id in online ensures FriendFields(updates, id, start[id], online[id]) {
        FriendFieldsAreLast(start[id], id, updates);
      }
    }
  }
}
