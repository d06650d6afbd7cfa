/**
 The update barrier together with a consumer whose characters come and go.  `ideal` is what the cache
 would hold if every raw update reached it at once, one by one.  A character may log in while the
 buffer still holds an older update of it; that update then arrives after the login.
 */
module TrackedUpdates {
  import opened UpdatesBarrier
  import opened OnlineCharacters

  datatype Tracked<V> = Tracked(buffer: Buffer, cache: map<nat, V>, ideal: map<nat, V>)

  datatype Step<V> =
    | Raw(u: Update)
    | Ticked(sent: seq<Update>, ok: bool)   // `sent` reached the consumer
    | Login(id: nat, view: V)
    | Logout(id: nat)

  /** Every cached view after a list of updates. */
  ghost function Applied<V>(apply: (V, Update) -> V, views: map<nat, V>, updates: seq<Update>): map<nat, V> {
    map id | id in views :: After(apply, views[id], id, updates)
  }

  ghost function Next<V>(apply: (V, Update) -> V, t: Tracked<V>, step: Step<V>): Tracked<V> {
    match step
    case Raw(u) => Tracked(Absorbed(t.buffer, u), t.cache, Applied(apply, t.ideal, [u]))
    case Ticked(sent, ok) => Tracked(if ok then map[] else t.buffer, Applied(apply, t.cache, sent), t.ideal)
    case Login(id, view) => t.(cache := t.cache[id := view], ideal := t.ideal[id := view])
    case Logout(id) => t.(cache := t.cache - {id}, ideal := t.ideal - {id})
  }

  ghost predicate Possible<V>(sendable: Update -> bool, t: Tracked<V>, step: Step<V>) {
    match step
    case Raw(u) => sendable(u)
    case Ticked(sent, ok) => if ok then Covers(sent, t.buffer) else TakenFrom(sent, t.buffer)
    case _ => true
  }

  /** Whoever logs in has no buffered update, or one that the login view already reflects. */
  ghost predicate Settled<V>(apply: (V, Update) -> V, t: Tracked<V>, step: Step<V>) {
    step.Login? && step.id in t.buffer ==> apply(step.view, t.buffer[step.id]) == step.view
  }

  // ------------------------------------------------------------ the invariant

  ghost predicate BufferFit(sendable: Update -> bool, buffer: Buffer) {
    Keyed(buffer) && forall k :: k in buffer ==> sendable(buffer[k])
  }

  /** The buffer takes every cached view to where the raw updates took it. */
  ghost predicate CatchesUp<V>(apply: (V, Update) -> V, t: Tracked<V>) {
    && (forall id :: id in t.cache <==> id in t.ideal)
    && forall id :: id in t.cache ==> After(apply, t.cache[id], id, Buffered(t.buffer, id)) == t.ideal[id]
  }

  lemma RawCatchesUp<V(!new)>(apply: (V, Update) -> V, sendable: Update -> bool, t: Tracked<V>, u: Update)
    requires Coalesces(apply, sendable) && BufferFit(sendable, t.buffer) && CatchesUp(apply, t) && sendable(u)
    ensures BufferFit(sendable, Absorbed(t.buffer, u)) && CatchesUp(apply, Next(apply, t, Raw(u)))
  {
    var t' := Next(apply, t, Raw(u));
    forall id | id in t'.cache ensures After(apply, t'.cache[id], id, Buffered(t'.buffer, id)) == t'.ideal[id] {
      AbsorbActsLikeUpdate(apply, sendable, t.cache[id], id, t.buffer, u);
      AfterAppend(apply, t.cache[id], id, Buffered(t.buffer, id), [u]);
    }
  }

  lemma TickCatchesUp<V(!new)>(apply: (V, Update) -> V, sendable: Update -> bool, t: Tracked<V>, sent: seq<Update>, ok: bool)
    requires Coalesces(apply, sendable) && BufferFit(sendable, t.buffer) && CatchesUp(apply, t)
    requires Possible(sendable, t, Ticked(sent, ok))
    ensures CatchesUp(apply, Next(apply, t, Ticked(sent, ok)))
    ensures ok ==> Next(apply, t, Ticked(sent, ok)).cache == t.ideal
  {
    hide Coalesces, After, Buffered, Covers, TakenFrom, Keyed;
    var t' := Next(apply, t, Ticked(sent, ok));
    forall id | id in t.cache
      ensures After(apply, t'.cache[id], id, Buffered(t'.buffer, id)) == t.ideal[id]
      ensures ok ==> t'.cache[id] == t.ideal[id]
    {
      DeliveryCatchesUp(apply, sendable, t.cache[id], id, sent, ok, t.buffer);
    }
  }

  /** A delivery, and what is still buffered after it, act on one view like the buffer. */
  lemma DeliveryCatchesUp<V(!new)>(apply: (V, Update) -> V, sendable: Update -> bool, v: V, id: nat,
                                   sent: seq<Update>, ok: bool, buffer: Buffer)
    requires Coalesces(apply, sendable) && BufferFit(sendable, buffer)
    requires if ok then Covers(sent, buffer) else TakenFrom(sent, buffer)
    ensures After(apply, After(apply, v, id, sent), id, Buffered(if ok then map[] else buffer, id))
            == After(apply, v, id, Buffered(buffer, id))
    ensures ok ==> After(apply, v, id, sent) == After(apply, v, id, Buffered(buffer, id))
  {
    if ok {
      CoverActsLikeEntry(apply, v, id, sent, buffer);
    } else {
      AfterAppend(apply, v, id, sent, Buffered(buffer, id));
      ResendHarmless(apply, sendable, v, id, sent, buffer);
    }
  }

  /** A login keeps the cache catching up exactly if it is settled. */
  lemma LoginCatchesUpExactly<V(!new)>(apply: (V, Update) -> V, t: Tracked<V>, id: nat, view: V)
    requires Keyed(t.buffer) && CatchesUp(apply, t)
    ensures CatchesUp(apply, Next(apply, t, Login(id, view))) <==> Settled(apply, t, Login(id, view))
  {
    hide After, Buffered;
    AfterBuffered(apply, view, id, t.buffer);
    var t' := Next(apply, t, Login(id, view));
    assert id in t'.cache && t'.ideal[id] == view;
  }

  /** Every step keeps the cache catching up with the raw updates, exactly if no login meets an unsettled update. */
  lemma StepCatchesUpExactly<V(!new)>(apply: (V, Update) -> V, sendable: Update -> bool, t: Tracked<V>, step: Step<V>)
    requires Coalesces(apply, sendable) && BufferFit(sendable, t.buffer) && CatchesUp(apply, t) && Possible(sendable, t, step)
    ensures BufferFit(sendable, Next(apply, t, step).buffer)
    ensures CatchesUp(apply, Next(apply, t, step)) <==> Settled(apply, t, step)
  {
    match step {
      case Raw(u) => RawCatchesUp(apply, sendable, t, u);
      case Ticked(sent, ok) => TickCatchesUp(apply, sendable, t, sent, ok);
      case Login(id, view) => LoginCatchesUpExactly(apply, t, id, view);
      case Logout(id) => hide After, Buffered;
    }
  }

  /** Right after the next successful tick the cache shows the login view exactly if the login was settled. */
  lemma LoginSurvivesTickExactly<V(!new)>(apply: (V, Update) -> V, t: Tracked<V>, id: nat, view: V, sent: seq<Update>)
    requires Keyed(t.buffer) && Covers(sent, t.buffer)
    ensures var t' := Next(apply, Next(apply, t, Login(id, view)), Ticked(sent, true));
            id in t'.cache && (t'.cache[id] == view <==> Settled(apply, t, Login(id, view)))
  {
    hide After, Buffered, Covers;
    CoverActsLikeEntry(apply, view, id, sent, t.buffer);
    AfterBuffered(apply, view, id, t.buffer);
  }

  // ------------------------------------------------------------ runs

  ghost predicate IsTrackedRun<V>(apply: (V, Update) -> V, sendable: Update -> bool, run: seq<Tracked<V>>, steps: seq<Step<V>>) {
    && |run| == |steps| + 1 && run[0] == Tracked(map[], map[], map[])
    && forall i :: 0 <= i < |steps| ==> Possible(sendable, run[i], steps[i]) && run[i + 1] == Next(apply, run[i], steps[i])
  }

  ghost predicate AllSettled<V>(apply: (V, Update) -> V, run: seq<Tracked<V>>, steps: seq<Step<V>>, k: nat)
    requires |run| == |steps| + 1 && k <= |steps|
  {
    forall i :: 0 <= i < k ==> Settled(apply, run[i], steps[i])
  }

  lemma {:induction false} RunCatchesUp<V(!new)>(apply: (V, Update) -> V, sendable: Update -> bool,
                                                 run: seq<Tracked<V>>, steps: seq<Step<V>>, k: nat)
    requires Coalesces(apply, sendable) && IsTrackedRun(apply, sendable, run, steps)
    requires k <= |steps| && AllSettled(apply, run, steps, k)
    ensures BufferFit(sendable, run[k].buffer) && CatchesUp(apply, run[k])
  {
    hide Coalesces, Possible, Next, Settled;
    if k > 0 {
      RunCatchesUp(apply, sendable, run, steps, k - 1);
      assert Possible(sendable, run[k - 1], steps[k - 1]) && run[k - 1 + 1] == Next(apply, run[k - 1], steps[k - 1]);
      StepCatchesUpExactly(apply, sendable, run[k - 1], steps[k - 1]);
    }
  }

  /**
   In every run of updates, ticks, logins and logouts whose logins are settled, the whole cache is what
   the raw updates alone would have made it, after each tick that succeeds.
   */
  lemma CacheExactAfterTick<V(!new)>(apply: (V, Update) -> V, sendable: Update -> bool,
                                     run: seq<Tracked<V>>, steps: seq<Step<V>>, k: nat)
    requires Coalesces(apply, sendable) && IsTrackedRun(apply, sendable, run, steps)
    requires 0 < k <= |steps| && AllSettled(apply, run, steps, k) && steps[k - 1].Ticked? && steps[k - 1].ok
    ensures run[k].cache == run[k].ideal
  {
    hide Coalesces, Next;
    RunCatchesUp(apply, sendable, run, steps, k - 1);
    assert run[k - 1 + 1] == Next(apply, run[k - 1], steps[k - 1]);
    TickCatchesUp(apply, sendable, run[k - 1], steps[k - 1].sent, true);
    IdealStays(apply, run[k - 1], steps[k - 1]);
  }

  lemma IdealStays<V>(apply: (V, Update) -> V, t: Tracked<V>, step: Step<V>)
    requires step.Ticked?
    ensures Next(apply, t, step).ideal == t.ideal
  {
  }

  lemma AppliedNothing<V>(apply: (V, Update) -> V, views: map<nat, V>)
    ensures Applied(apply, views, []) == views
  {
  }

  lemma AppliedAppend<V>(apply: (V, Update) -> V, views: map<nat, V>, before: seq<Update>, after: seq<Update>)
    ensures Applied(apply, views, before + after) == Applied(apply, Applied(apply, views, before), after)
  {
    hide After;
    forall id | id in views
      ensures After(apply, views[id], id, before + after) == After(apply, After(apply, views[id], id, before), id, after)
    {
      AfterAppend(apply, views[id], id, before, after);
    }
  }

  // ------------------------------------------------------------ what a character shows, update by update

  /** The raw updates among some steps, in order. */
  ghost function UpdatesIn<V>(steps: seq<Step<V>>): (updates: seq<Update>)
    ensures forall u :: u in updates <==> Raw(u) in steps
  {
    if steps == [] then []
    else
      var n := |steps| - 1;
      UpdatesIn(steps[..n]) + if steps[n].Raw? then [steps[n].u] else []
  }

  /** The character logged in at step `i`, and neither logged out nor logged in again before step `k`. */
  ghost predicate LoggedInAt<V>(steps: seq<Step<V>>, k: nat, id: nat, i: nat)
    requires k <= |steps|
  {
    && i < k && steps[i].Login? && steps[i].id == id
    && forall j :: i < j < k ==> !((steps[j].Login? || steps[j].Logout?) && steps[j].id == id)
  }

  lemma LoggedInBefore<V>(steps: seq<Step<V>>, k: nat, id: nat, i: nat)
    requires k <= |steps| && LoggedInAt(steps, k, id, i)
    ensures 0 <= i < k
  {
  }

  lemma LoggedInStep<V>(steps: seq<Step<V>>, k: nat, id: nat, i: nat)
    requires 0 < k <= |steps|
    ensures var step := steps[k - 1];
            LoggedInAt(steps, k, id, i)
            <==> if (step.Login? || step.Logout?) && step.id == id then step.Login? && i == k - 1
                 else LoggedInAt(steps, k - 1, id, i)
    ensures LoggedInAt(steps, k, id, i) ==> i < k && steps[i].Login? && steps[i].id == id
  {
  }

  /** A character is cached exactly while it is logged in. */
  lemma {:induction false} CachedWhileLoggedIn<V>(apply: (V, Update) -> V, sendable: Update -> bool,
                                                  run: seq<Tracked<V>>, steps: seq<Step<V>>, k: nat, id: nat)
    requires IsTrackedRun(apply, sendable, run, steps) && k <= |steps|
    ensures id in run[k].cache <==> exists i :: LoggedInAt(steps, k, id, i)
    ensures id in run[k].cache <==> id in run[k].ideal
    decreases k
  {
    if k > 0 {
      hide Possible, After, Next, LoggedInAt;
      var step := steps[k - 1];
      CachedWhileLoggedIn(apply, sendable, run, steps, k - 1, id);
      assert run[k - 1 + 1] == Next(apply, run[k - 1], step);
      CachedStep(apply, run[k - 1], step, id);
      forall i: nat ensures LoggedInAt(steps, k, id, i) ==> LoggedInAt(steps, k, id, k - 1) || LoggedInAt(steps, k - 1, id, i) {
        LoggedInStep(steps, k, id, i);
      }
      LoggedInStep(steps, k, id, k - 1);
      var before := k - 1;
      if exists i :: LoggedInAt(steps, before, id, i) {
        var i :| LoggedInAt(steps, before, id, i);
        LoggedInStep(steps, k, id, i);
      }
    }
  }

  lemma CachedStep<V>(apply: (V, Update) -> V, t: Tracked<V>, step: Step<V>, id: nat)
    ensures var (was, now) := (id in t.cache, id in Next(apply, t, step).cache);
            now == if (step.Login? || step.Logout?) && step.id == id then step.Login? else was
    ensures var (was, now) := (id in t.ideal, id in Next(apply, t, step).ideal);
            now == if (step.Login? || step.Logout?) && step.id == id then step.Login? else was
  {
  }

  /** The ideal view of a character is its login view and then every raw update since. */
  lemma {:induction false} IdealSinceLogin<V>(apply: (V, Update) -> V, sendable: Update -> bool,
                                              run: seq<Tracked<V>>, steps: seq<Step<V>>, k: nat, id: nat, i: nat)
    requires IsTrackedRun(apply, sendable, run, steps) && k <= |steps| && LoggedInAt(steps, k, id, i)
    ensures i < k && steps[i].Login? && id in run[k].ideal
    ensures run[k].ideal[id] == After(apply, steps[i].view, id, UpdatesIn(steps[i + 1..k]))
    decreases k
  {
    hide IsTrackedRun, LoggedInAt, UpdatesIn, After, Next;
    LoggedInBefore(steps, k, id, i);
    RunStep(apply, sendable, run, steps, k - 1);
    LoggedInStep(steps, k, id, i);
    var step, t := steps[k - 1], run[k - 1];
    if (step.Login? || step.Logout?) && step.id == id {
      assert steps[i + 1..k] == [];
      IdealAtLogin(apply, t, step);
    } else {
      assert steps[i + 1..k] == steps[i + 1..k - 1] + [step];
      var before := UpdatesIn(steps[i + 1..k - 1]);
      UpdatesInGrow(steps[i + 1..k - 1], step);
      IdealSinceLogin(apply, sendable, run, steps, k - 1, id, i);
      IdealStep(apply, t, step, id);
      if step.Raw? {
        AfterAppend(apply, steps[i].view, id, before, [step.u]);
      }
    }
  }

  lemma RunStep<V>(apply: (V, Update) -> V, sendable: Update -> bool, run: seq<Tracked<V>>, steps: seq<Step<V>>, k: nat)
    requires IsTrackedRun(apply, sendable, run, steps) && k < |steps|
    ensures |run| == |steps| + 1 && run[k + 1] == Next(apply, run[k], steps[k])
  {
  }

  lemma IdealAtLogin<V>(apply: (V, Update) -> V, t: Tracked<V>, step: Step<V>)
    requires step.Login?
    ensures var ideal := Next(apply, t, step).ideal;
            step.id in ideal && ideal[step.id] == After(apply, step.view, step.id, UpdatesIn<V>([]))
  {
  }

  lemma UpdatesInGrow<V>(steps: seq<Step<V>>, step: Step<V>)
    ensures UpdatesIn(steps + [step]) == if step.Raw? then UpdatesIn(steps) + [step.u] else UpdatesIn(steps)
  {
    assert (steps + [step])[..|steps|] == steps;
  }

  /** A step that neither logs the character in nor out. */
  lemma IdealStep<V>(apply: (V, Update) -> V, t: Tracked<V>, step: Step<V>, id: nat)
    requires id in t.ideal && !((step.Login? || step.Logout?) && step.id == id)
    ensures id in Next(apply, t, step).ideal
    ensures Next(apply, t, step).ideal[id] == if step.Raw? then After(apply, t.ideal[id], id, [step.u]) else t.ideal[id]
  {
    hide After;
  }

  ghost predicate NoneFails<V>(steps: seq<Step<V>>) {
    forall i :: 0 <= i < |steps| && steps[i].Ticked? ==> steps[i].ok
  }

  /** The end of a run whose last step is a tick that succeeded, with every login settled. */
  ghost predicate EndsSettled<V>(apply: (V, Update) -> V, run: seq<Tracked<V>>, steps: seq<Step<V>>)
    requires |run| == |steps| + 1
  {
    && steps != [] && steps[|steps| - 1].Ticked? && steps[|steps| - 1].ok
    && AllSettled(apply, run, steps, |steps|)
  }

  /** Exactly the characters that are logged in. */
  ghost predicate OnlyLoggedIn<V>(views: map<nat, V>, steps: seq<Step<V>>) {
    forall id :: id in views <==> exists i :: LoggedInAt(steps, |steps|, id, i)
  }

  lemma OnlyLoggedInCached<V>(apply: (V, Update) -> V, sendable: Update -> bool, run: seq<Tracked<V>>, steps: seq<Step<V>>)
    requires IsTrackedRun(apply, sendable, run, steps)
    ensures OnlyLoggedIn(run[|steps|].cache, steps)
  {
    hide LoggedInAt, Next, Possible;
    forall id ensures id in run[|steps|].cache <==> exists i :: LoggedInAt(steps, |steps|, id, i) {
      CachedWhileLoggedIn(apply, sendable, run, steps, |steps|, id);
    }
  }

  /** Each character shows, field by field, what the last raw update since its login carries, or else its login view. */
  ghost predicate FriendsShowLast(views: map<nat, FriendView>, steps: seq<Step<FriendView>>) {
    forall id, i: nat :: LoggedInAt(steps, |steps|, id, i) ==>
      id in views && FriendFields(UpdatesIn(steps[i + 1..]), id, steps[i].view, views[id])
  }

  ghost predicate OnlineShowsLast(views: map<nat, OnlineView>, steps: seq<Step<OnlineView>>) {
    forall id, i: nat :: LoggedInAt(steps, |steps|, id, i) ==>
      id in views && OnlineFields(UpdatesIn(steps[i + 1..]), id, steps[i].view, views[id])
  }

  /** At such an end both caches do. */
  lemma FriendsEndShowingLast(run: seq<Tracked<FriendView>>, steps: seq<Step<FriendView>>)
    requires IsTrackedRun(ApplyFriend, AreaWithZone, run, steps) && EndsSettled(ApplyFriend, run, steps)
    ensures FriendsShowLast(run[|steps|].cache, steps)
  {
    hide After, Next, Possible, Settled, FriendFields, ApplyFriend;
    FriendCoalesces();
    CacheExactAfterTick(ApplyFriend, AreaWithZone, run, steps, |steps|);
    forall id, i: nat | LoggedInAt(steps, |steps|, id, i)
      ensures id in run[|steps|].cache
      ensures FriendFields(UpdatesIn(steps[i + 1..]), id, steps[i].view, run[|steps|].cache[id])
    {
      IdealSinceLogin(ApplyFriend, AreaWithZone, run, steps, |steps|, id, i);
      FriendFieldsAreLast(steps[i].view, id, UpdatesIn(steps[i + 1..]));
      assert steps[i + 1..|steps|] == steps[i + 1..];
    }
  }

  lemma OnlineEndsShowingLast(run: seq<Tracked<OnlineView>>, steps: seq<Step<OnlineView>>)
    requires IsTrackedRun(ApplyOnline, AnyUpdate, run, steps) && EndsSettled(ApplyOnline, run, steps)
    ensures OnlineShowsLast(run[|steps|].cache, steps)
  {
    hide After, Next, Possible, Settled, OnlineFields, ApplyOnline;
    OnlineCoalesces();
    CacheExactAfterTick(ApplyOnline, AnyUpdate, run, steps, |steps|);
    forall id, i: nat | LoggedInAt(steps, |steps|, id, i)
      ensures id in run[|steps|].cache
      ensures OnlineFields(UpdatesIn(steps[i + 1..]), id, steps[i].view, run[|steps|].cache[id])
    {
      IdealSinceLogin(ApplyOnline, AnyUpdate, run, steps, |steps|, id, i);
      OnlineFieldsAreLast(steps[i].view, id, UpdatesIn(steps[i + 1..]));
      assert steps[i + 1..|steps|] == steps[i + 1..];
    }
  }

  // ------------------------------------------------------------ the barrier and the friends cache

  datatype Input<V> = Arrives(u: Update) | TickNow | LogsIn(id: nat, view: V) | LogsOut(id: nat)

  /** The step of the tracked system that an input takes. */
  ghost predicate Takes<V>(input: Input<V>, step: Step<V>) {
    match input
    case Arrives(u) => step == Raw(u)
    case TickNow => step.Ticked?
    case LogsIn(id, view) => step == Login(id, view)
    case LogsOut(id) => step == Logout(id)
  }

  /** The cache handles the published batches in order. */
  method DeliverToFriends(friends: OnlinePlayersCache, batches: seq<seq<Update>>)
    modifies friends
    ensures friends.online == Applied(ApplyFriend, old(friends.online), Flat(batches))
  {
    hide After, Flat;
    AppliedNothing(ApplyFriend, friends.online);
    NothingYet(batches[..0]);
    for i := 0 to |batches|
      invariant friends.online == Applied(ApplyFriend, old(friends.online), Flat(batches[..i]))
    {
      assert batches[..i + 1] == batches[..i] + [batches[i]];
      FlatAppend(batches[..i], batches[i]);
      AppliedAppend(ApplyFriend, old(friends.online), Flat(batches[..i]), batches[i]);
      ghost var before := friends.online;
      friends.HandleCharactersUpdates(batches[i]);
      assert friends.online == Applied(ApplyFriend, before, batches[i]);
    }
    assert batches[..|batches|] == batches;
  }

  /** One input: the barrier and the cache together take one step of the tracked system. */
  method FriendsTurn(producer: Producer, friends: OnlinePlayersCache, buffer: Buffer, input: Input<FriendView>,
                     ghost t: Tracked<FriendView>)
    returns (buffer': Buffer, ghost step: Step<FriendView>, ghost t': Tracked<FriendView>)
    requires Keyed(buffer) && t.buffer == buffer && t.cache == friends.online
    requires input.Arrives? ==> AreaWithZone(input.u)
    modifies producer, friends
    ensures Keyed(buffer') && t'.buffer == buffer' && t'.cache == friends.online
    ensures Possible(AreaWithZone, t, step) && t' == Next(ApplyFriend, t, step)
    ensures Takes(input, step)
    ensures old(producer.script) == [] ==> producer.script == [] && (step.Ticked? ==> step.ok)
  {
    hide After, Covers, TakenFrom, Applied, Flat;
    buffer' := buffer;
    match input {
      case Arrives(u) =>
        buffer' := Absorbed(buffer, u);
        step := Raw(u);
      case TickNow =>
        var published := |producer.delivered|;
        var ok, batches := Send(producer, buffer);
        DeliverToFriends(friends, producer.delivered[published..]);
        assert producer.delivered[published..] == batches;
        buffer' := if ok then map[] else buffer;
        step := Ticked(Flat(batches), ok);
      case LogsIn(id, view) =>
        friends.PlayerLoggedIn(id, view);
        step := Login(id, view);
      case LogsOut(id) =>
        friends.PlayerLoggedOut(id);
        step := Logout(id);
    }
    t' := Next(ApplyFriend, t, step);
  }

  /**
   The barrier's loop with the friends cache behind it.  If the last input is a tick that succeeds and no
   login met an unsettled update, the cache object holds exactly the ideal views.
   */
  method FollowFriends(producer: Producer, friends: OnlinePlayersCache, inputs: seq<Input<FriendView>>)
    returns (ghost run: seq<Tracked<FriendView>>, ghost steps: seq<Step<FriendView>>)
    requires friends.online == map[] && forall i :: 0 <= i < |inputs| && inputs[i].Arrives? ==> AreaWithZone(inputs[i].u)
    modifies producer, friends
    ensures IsTrackedRun(ApplyFriend, AreaWithZone, run, steps) && |steps| == |inputs|
    ensures forall i :: 0 <= i < |inputs| ==> Takes(inputs[i], steps[i])
    ensures old(producer.script) == [] ==> NoneFails(steps)
    ensures run[|inputs|].cache == friends.online
    ensures OnlyLoggedIn(friends.online, steps)
    ensures EndsSettled(ApplyFriend, run, steps) ==>
              friends.online == run[|inputs|].ideal && FriendsShowLast(friends.online, steps)
  {
    hide After, Next, Possible, Settled, AreaWithZone, Keyed, Takes, OnlyLoggedIn, FriendsShowLast;
    var buffer: Buffer := map[];
    NothingYet([]);
    run, steps := [Tracked(map[], map[], map[])], [];
    for n := 0 to |inputs|
      invariant Keyed(buffer) && |steps| == n && IsTrackedRun(ApplyFriend, AreaWithZone, run, steps)
      invariant forall i :: 0 <= i < n ==> Takes(inputs[i], steps[i])
      invariant old(producer.script) == [] ==> producer.script == [] && NoneFails(steps)
      invariant run[n].buffer == buffer && run[n].cache == friends.online
    {
      ghost var step, t';
      buffer, step, t' := FriendsTurn(producer, friends, buffer, inputs[n], run[n]);
      RunGrows(ApplyFriend, AreaWithZone, run, steps, step, t');
      run, steps := run + [t'], steps + [step];
    }
    FriendCoalesces();
    OnlyLoggedInCached(ApplyFriend, AreaWithZone, run, steps);
    if EndsSettled(ApplyFriend, run, steps) {
      CacheExactAfterTick(ApplyFriend, AreaWithZone, run, steps, |steps|);
      FriendsEndShowingLast(run, steps);
    }
  }

  lemma RunGrows<V>(apply: (V, Update) -> V, sendable: Update -> bool, run: seq<Tracked<V>>, steps: seq<Step<V>>,
                    step: Step<V>, t': Tracked<V>)
    requires IsTrackedRun(apply, sendable, run, steps)
    requires Possible(sendable, run[|steps|], step) && t' == Next(apply, run[|steps|], step)
    ensures IsTrackedRun(apply, sendable, run + [t'], steps + [step])
  {
    hide Possible, Next;
    var longer, more := run + [t'], steps + [step];
    forall i | 0 <= i < |more|
      ensures Possible(sendable, longer[i], more[i]) && longer[i + 1] == Next(apply, longer[i], more[i])
    {
      assert i < |steps| ==> Possible(sendable, run[i], steps[i]) && run[i + 1] == Next(apply, run[i], steps[i]);
    }
  }

  // ------------------------------------------------------------ the barrier and the online-characters cache

  datatype OnlineInput = Arriving(u: Update) | TickTime | Enters(ch: Character) | Leaves(guid: nat)

  /** The step an input takes, but for the view of a character that enters. */
  ghost predicate TakesOnline(input: OnlineInput, step: Step<OnlineView>) {
    match input
    case Arriving(u) => step == Raw(u)
    case TickTime => step.Ticked?
    case Enters(ch) => step.Login? && step.id == ch.guid
    case Leaves(guid) => step == Logout(guid)
  }

  /** The views the cache shows for one realm. */
  ghost function Views(cache: CharactersOnline, realm: nat): map<nat, OnlineView>
    requires cache.Valid()
    reads cache, cache.RealmAt(realm).guids.Values
  {
    map g | g in cache.RealmAt(realm).guids :: cache.RealmAt(realm).guids[g].view
  }

  ghost predicate CacheFit(cache: CharactersOnline, nameOf: nat -> string, realm: nat)
    reads cache
  {
    cache.Valid() && Mirror(cache.upper, cache.RealmAt(realm)) && Named(nameOf, cache.RealmAt(realm))
  }

  method DeliverToOnline(cache: CharactersOnline, realm: nat, batches: seq<seq<Update>>)
    requires cache.Valid() && Mirror(cache.upper, cache.RealmAt(realm))
    modifies cache.RealmAt(realm).guids.Values
    ensures Views(cache, realm) == Applied(ApplyOnline, old(Views(cache, realm)), Flat(batches))
  {
    hide After, Flat, Mirror;
    AppliedNothing(ApplyOnline, Views(cache, realm));
    NothingYet(batches[..0]);
    for i := 0 to |batches|
      invariant Views(cache, realm) == Applied(ApplyOnline, old(Views(cache, realm)), Flat(batches[..i]))
    {
      assert batches[..i + 1] == batches[..i] + [batches[i]];
      FlatAppend(batches[..i], batches[i]);
      AppliedAppend(ApplyOnline, old(Views(cache, realm)), Flat(batches[..i]), batches[i]);
      ghost var before := Views(cache, realm);
      cache.HandleCharactersUpdates(realm, batches[i]);
      assert Views(cache, realm) == Applied(ApplyOnline, before, batches[i]);
    }
    assert batches[..|batches|] == batches;
  }

  /** A login enters the character under both keys; the cache then shows its view. */
  method EnterOnline(cache: CharactersOnline, ghost nameOf: nat -> string, ch: Character)
    requires CacheFit(cache, nameOf, ch.realm) && UniqueNames(cache.upper, nameOf) && ch.name == nameOf(ch.guid)
    modifies cache
    ensures CacheFit(cache, nameOf, ch.realm)
    ensures Views(cache, ch.realm) == old(Views(cache, ch.realm))[ch.guid := ch.view]
    ensures cache.RealmAt(ch.realm).guids == old(cache.RealmAt(ch.realm).guids)[ch.guid := ch]
  {
    hide Mirror, Named, UniqueNames;
    ghost var s := cache.RealmAt(ch.realm);
    NextMirrors(cache.upper, nameOf, s, Op.Add(ch));
    cache.Add(ch);
    ghost var s' := cache.RealmAt(ch.realm);
    assert s' == Added(cache.upper, s, ch);
    hide CharactersOnline.RealmAt, Added;
    ViewAdded(s, s', ch);
  }

  lemma ViewAdded(s: Realm, s': Realm, ch: Character)
    requires s'.guids == s.guids[ch.guid := ch]
    ensures (map g | g in s'.guids :: s'.guids[g].view) == (map g | g in s.guids :: s.guids[g].view)[ch.guid := ch.view]
  {
  }

  /** A logout takes the character out of both indexes. */
  method LeaveOnline(cache: CharactersOnline, ghost nameOf: nat -> string, realm: nat, guid: nat)
    requires CacheFit(cache, nameOf, realm)
    modifies cache
    ensures CacheFit(cache, nameOf, realm)
    ensures Views(cache, realm) == old(Views(cache, realm)) - {guid}
    ensures cache.RealmAt(realm).guids == old(cache.RealmAt(realm).guids) - {guid}
  {
    hide Mirror;
    cache.Remove(realm, guid);
  }

  /** One input: the barrier and the cache together take one step of the tracked system. */
  method OnlineTurn(producer: Producer, cache: CharactersOnline, ghost nameOf: nat -> string, realm: nat,
                    buffer: Buffer, input: OnlineInput, ghost t: Tracked<OnlineView>)
    returns (buffer': Buffer, ghost step: Step<OnlineView>, ghost t': Tracked<OnlineView>)
    requires CacheFit(cache, nameOf, realm) && UniqueNames(cache.upper, nameOf)
    requires Keyed(buffer) && t.buffer == buffer && t.cache == Views(cache, realm)
    requires input.Enters? ==> input.ch.realm == realm && input.ch.name == nameOf(input.ch.guid)
    modifies producer, cache, cache.RealmAt(realm).guids.Values
    ensures CacheFit(cache, nameOf, realm)
    ensures Keyed(buffer') && t'.buffer == buffer' && t'.cache == Views(cache, realm)
    ensures Possible(AnyUpdate, t, step) && t' == Next(ApplyOnline, t, step)
    ensures old(producer.script) == [] ==> producer.script == [] && (step.Ticked? ==> step.ok)
    ensures TakesOnline(input, step) && (input.Enters? ==> step.view == old(input.ch.view))
    ensures forall g :: g in cache.RealmAt(realm).guids ==>
              || (g in old(cache.RealmAt(realm).guids) && cache.RealmAt(realm).guids[g] == old(cache.RealmAt(realm).guids[g]))
              || (input.Enters? && cache.RealmAt(realm).guids[g] == input.ch)
  {
    hide After, Covers, TakenFrom, Applied, Flat, Mirror, Named, UniqueNames;
    buffer' := buffer;
    match input {
      case Arriving(u) =>
        buffer' := Absorbed(buffer, u);
        step := Raw(u);
      case TickTime =>
        var published := |producer.delivered|;
        var ok, batches := Send(producer, buffer);
        assert Views(cache, realm) == t.cache;
        DeliverToOnline(cache, realm, producer.delivered[published..]);
        assert producer.delivered[published..] == batches;
        buffer' := if ok then map[] else buffer;
        step := Ticked(Flat(batches), ok);
      case Enters(ch) =>
        EnterOnline(cache, nameOf, ch);
        step := Login(ch.guid, ch.view);
      case Leaves(guid) =>
        LeaveOnline(cache, nameOf, realm, guid);
        step := Logout(guid);
    }
    t' := Next(ApplyOnline, t, step);
  }

  /** The same as `FollowFriends` for the online-characters cache of one realm, with a fixed name per character. */
  method FollowOnline(producer: Producer, cache: CharactersOnline, ghost nameOf: nat -> string, realm: nat,
                      inputs: seq<OnlineInput>, ghost known: set<Character>)
    returns (ghost run: seq<Tracked<OnlineView>>, ghost steps: seq<Step<OnlineView>>)
    requires cache.Valid() && cache.RealmAt(realm) == Realm(map[], map[]) && UniqueNames(cache.upper, nameOf)
    requires forall i :: 0 <= i < |inputs| && inputs[i].Enters? ==>
               inputs[i].ch in known && inputs[i].ch.realm == realm && inputs[i].ch.name == nameOf(inputs[i].ch.guid)
    modifies producer, cache, known
    ensures cache.Valid() && IsTrackedRun(ApplyOnline, AnyUpdate, run, steps) && |steps| == |inputs|
    ensures forall i :: 0 <= i < |inputs| ==> TakesOnline(inputs[i], steps[i])
    ensures old(producer.script) == [] ==> NoneFails(steps)
    ensures run[|inputs|].cache == Views(cache, realm)
    ensures OnlyLoggedIn(Views(cache, realm), steps)
    ensures EndsSettled(ApplyOnline, run, steps) ==>
              Views(cache, realm) == run[|inputs|].ideal && OnlineShowsLast(Views(cache, realm), steps)
  {
    hide After, Next, Possible, Settled, Keyed, Mirror, Named, UniqueNames, TakesOnline, OnlyLoggedIn, OnlineShowsLast;
    var buffer: Buffer := map[];
    NothingYet([]);
    run, steps := [Tracked(map[], map[], map[])], [];
    NobodyFits(cache.upper, nameOf);
    assert Views(cache, realm) == map[];
    for n := 0 to |inputs|
      invariant CacheFit(cache, nameOf, realm)
      invariant forall g :: g in cache.RealmAt(realm).guids ==> cache.RealmAt(realm).guids[g] in known
      invariant Keyed(buffer) && |steps| == n && IsTrackedRun(ApplyOnline, AnyUpdate, run, steps)
      invariant forall i :: 0 <= i < n ==> TakesOnline(inputs[i], steps[i])
      invariant old(producer.script) == [] ==> producer.script == [] && NoneFails(steps)
      invariant run[n].buffer == buffer && run[n].cache == Views(cache, realm)
    {
      ghost var step, t';
      buffer, step, t' := OnlineTurn(producer, cache, nameOf, realm, buffer, inputs[n], run[n]);
      RunGrows(ApplyOnline, AnyUpdate, run, steps, step, t');
      run, steps := run + [t'], steps + [step];
    }
    OnlineCoalesces();
    OnlyLoggedInCached(ApplyOnline, AnyUpdate, run, steps);
    if EndsSettled(ApplyOnline, run, steps) {
      CacheExactAfterTick(ApplyOnline, AnyUpdate, run, steps, |steps|);
      OnlineEndsShowingLast(run, steps);
    }
  }

  lemma NobodyFits(upper: string -> string, nameOf: nat -> string)
    ensures Mirror(upper, Realm(map[], map[])) && Named(nameOf, Realm(map[], map[]))
  {
  }
}
