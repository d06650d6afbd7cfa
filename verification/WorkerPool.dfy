/**
 The bounded-channel worker pool behind the health checker and the metrics consumer.

 One iteration copies the object list, sends every object into `queue`, and only then reads
 `results`; a fixed number of workers moves objects from one channel to the other.  Both
 channels hold at most 100 entries.  The pool is a step system: any enabled step may be next.
 */
module WorkerPool {
  import opened Prelude

  /** A checked object: the list compares objects by address only. */
  datatype Target = Target(address: string, tag: int)

  /** What a worker reports: the object and whether the check returned an error. */
  datatype Report = Report(target: Target, failed: bool)

  // ------------------------------------------------------------ the object list

  ghost predicate DistinctAddresses(objects: seq<Target>) {
    forall i, j :: 0 <= i < j < |objects| ==> objects[i].address != objects[j].address
  }

  ghost predicate HasAddress(objects: seq<Target>, address: string) {
    exists i :: 0 <= i < |objects| && objects[i].address == address
  }

  ghost function Added(objects: seq<Target>, t: Target): seq<Target> {
    if HasAddress(objects, t.address) then objects else objects + [t]
  }

  /** The list without its first entry at `address`. */
  ghost function Removed(objects: seq<Target>, address: string): seq<Target> {
    if objects == [] then []
    else if objects[0].address == address then objects[1..]
    else [objects[0]] + Removed(objects[1..], address)
  }

  ghost predicate TakenAt(before: seq<Target>, after: seq<Target>, address: string, i: nat) {
    && i < |before| && before[i].address == address && after == before[..i] + before[i + 1..]
    && forall k :: 0 <= k < i ==> before[k].address != address
  }

  /** The first entry at `address`, if there is one, is gone; all others are there, in order. */
  ghost predicate FirstTaken(before: seq<Target>, after: seq<Target>, address: string) {
    || (exists i :: TakenAt(before, after, address, i))
    || (after == before && forall k :: 0 <= k < |before| ==> before[k].address != address)
  }

  lemma {:induction false} RemovedTakesFirst(objects: seq<Target>, address: string)
    ensures FirstTaken(objects, Removed(objects, address), address)
  {
    if objects == [] {
    } else if objects[0].address == address {
      assert TakenAt(objects, Removed(objects, address), address, 0);
    } else {
      var head, tail := objects[0], objects[1..];
      RemovedTakesFirst(tail, address);
      HeadTail(objects);
      TakenLater(head, tail, Removed(tail, address), address);
    }
  }

  lemma TakenLater(head: Target, before: seq<Target>, after: seq<Target>, address: string)
    requires head.address != address && FirstTaken(before, after, address)
    ensures FirstTaken([head] + before, [head] + after, address)
  {
    var all := [head] + before;
    if i: nat :| TakenAt(before, after, address, i) {
      assert all[..i + 1] == [head] + before[..i] && all[i + 1 + 1..] == before[i + 1..];
      assert TakenAt(all, [head] + after, address, i + 1);
    }
  }

  /** The entries whose address is not in `addresses`, in order. */
  ghost function Without(objects: seq<Target>, addresses: set<string>): seq<Target> {
    if objects == [] then []
    else (if objects[0].address in addresses then [] else [objects[0]]) + Without(objects[1..], addresses)
  }

  /** The mutable list shared by the checker and its callers; each method runs under the lock. */
  class TargetList {
    var objects: seq<Target>

    constructor ()
      ensures objects == []
    {
      objects := [];
    }

    method AddHealthCheckObject(t: Target)
      modifies this
      ensures objects == Added(old(objects), t)
      ensures DistinctAddresses(old(objects)) ==> DistinctAddresses(objects)
      ensures HasAddress(objects, t.address)
      ensures if exists k :: 0 <= k < |old(objects)| && old(objects)[k].address == t.address
              then objects == old(objects) else objects == old(objects) + [t]
    {
      var i := 0;
      while i < |objects|
        invariant 0 <= i <= |objects|
        invariant forall k :: 0 <= k < i ==> objects[k].address != t.address
      {
        if objects[i].address == t.address {
          return;
        }
        i := i + 1;
      }
      objects := objects + [t];
      assert objects[|objects| - 1] == t;
    }

    method RemoveHealthCheckObject(t: Target)
      modifies this
      ensures objects == Removed(old(objects), t.address)
      ensures DistinctAddresses(old(objects)) ==> DistinctAddresses(objects) && !HasAddress(objects, t.address)
      ensures FirstTaken(old(objects), objects, t.address)
    {
      hide DistinctAddresses, HasAddress, Removed, FirstTaken;
      RemovedTakesFirst(objects, t.address);
      ghost var was := objects;
      RemovedKeepsDistinct(was, t.address);
      var i := 0;
      while i < |objects|
        invariant 0 <= i <= |objects| && objects == was
        invariant Removed(was, t.address) == was[..i] + Removed(was[i..], t.address)
      {
        RemovedNext(was, i, t.address);
        if objects[i].address == t.address {
          objects := objects[..i] + objects[i + 1..];
          return;
        }
        i := i + 1;
      }
      assert was[..i] == was && was[i..] == [];
      RemovedFromNothing(t.address);
    }

    /** Deals with one report: a failed check drops the object, when the pool is configured to. */
    method HandleResult(r: Report, removesFailed: bool)
      modifies this
      ensures objects == AfterReport(old(objects), r, removesFailed)
      ensures if r.failed && removesFailed then FirstTaken(old(objects), objects, r.target.address) else objects == old(objects)
    {
      if r.failed && removesFailed {
        RemoveHealthCheckObject(r.target);
      }
    }
  }

  /** What removal does to a list whose first i entries do not match. */
  lemma RemovedNext(objects: seq<Target>, i: nat, address: string)
    requires i < |objects|
    ensures objects[..i] + Removed(objects[i..], address)
            == if objects[i].address == address then objects[..i] + objects[i + 1..]
               else objects[..i + 1] + Removed(objects[i + 1..], address)
  {
    assert objects[i..][1..] == objects[i + 1..];
    assert objects[..i + 1] == objects[..i] + [objects[i]];
  }

  lemma RemovedFromNothing(address: string)
    ensures Removed([], address) == []
  {
  }

  ghost function AfterReport(objects: seq<Target>, r: Report, removesFailed: bool): seq<Target> {
    if r.failed && removesFailed then Removed(objects, r.target.address) else objects
  }

  lemma {:induction false} RemovedElements(objects: seq<Target>, address: string)
    ensures forall t :: t in Removed(objects, address) ==> t in objects
  {
    if objects != [] {
      RemovedElements(objects[1..], address);
    }
  }

  lemma {:induction false} RemovedKeepsDistinct(objects: seq<Target>, address: string)
    ensures DistinctAddresses(objects) ==>
              DistinctAddresses(Removed(objects, address)) && !HasAddress(Removed(objects, address), address)
  {
    if objects != [] && DistinctAddresses(objects) {
      RemovedKeepsDistinct(objects[1..], address);
      RemovedElements(objects[1..], address);
      var tail := Removed(objects[1..], address);
      if objects[0].address != address {
        forall j | 0 <= j < |tail| ensures tail[j].address != objects[0].address {
          assert tail[j] in objects[1..];
        }
      }
    }
  }

  lemma {:induction false} WithoutElements(objects: seq<Target>, addresses: set<string>)
    ensures forall t :: t in Without(objects, addresses) <==> t in objects && t.address !in addresses
  {
    if objects != [] {
      WithoutElements(objects[1..], addresses);
    }
  }

  lemma {:induction false} WithoutNone(objects: seq<Target>)
    ensures Without(objects, {}) == objects
  {
    if objects != [] {
      WithoutNone(objects[1..]);
      HeadTail(objects);
    }
  }

  lemma {:induction false} WithoutUnused(objects: seq<Target>, addresses: set<string>, address: string)
    requires forall i :: 0 <= i < |objects| ==> objects[i].address != address
    ensures Without(objects, addresses + {address}) == Without(objects, addresses)
  {
    if objects != [] {
      WithoutUnused(objects[1..], addresses, address);
    }
  }

  lemma {:induction false} RemovedUnused(objects: seq<Target>, address: string)
    requires forall i :: 0 <= i < |objects| ==> objects[i].address != address
    ensures Removed(objects, address) == objects
  {
    if objects != [] {
      RemovedUnused(objects[1..], address);
      HeadTail(objects);
    }
  }

  /** Dropping one more address from an already filtered list is filtering by one more address. */
  lemma {:induction false} RemovedFromWithout(objects: seq<Target>, addresses: set<string>, address: string)
    requires DistinctAddresses(objects)
    ensures Removed(Without(objects, addresses), address) == Without(objects, addresses + {address})
  {
    hide DistinctAddresses;
    if objects == [] {
      FilteredNothing(addresses, address);
    } else {
      hide Removed, Without;
      var head, tail := objects[0], objects[1..];
      HeadTail(objects);
      HeadIsDistinct(head, tail);
      RemovedFromWithout(tail, addresses, address);
      FilteredHead(head, tail, addresses);
      FilteredHead(head, tail, addresses + {address});
      if head.address == address {
        WithoutUnused(tail, addresses, address);
        if address in addresses {
          assert addresses + {address} == addresses;
        } else {
          RemovedHead(head, Without(tail, addresses), address);
        }
      } else if head.address !in addresses {
        RemovedHead(head, Without(tail, addresses), address);
      }
    }
  }

  lemma FilteredNothing(addresses: set<string>, address: string)
    ensures Removed(Without([], addresses), address) == Without([], addresses + {address})
  {
  }

  lemma FilteredHead(head: Target, tail: seq<Target>, addresses: set<string>)
    ensures Without([head] + tail, addresses) == (if head.address in addresses then [] else [head]) + Without(tail, addresses)
    ensures head.address in addresses ==> Without([head] + tail, addresses) == Without(tail, addresses)
  {
    assert ([head] + tail)[1..] == tail;
    assert [] + Without(tail, addresses) == Without(tail, addresses);
  }

  lemma RemovedHead(head: Target, tail: seq<Target>, address: string)
    ensures Removed([head] + tail, address) == if head.address == address then tail else [head] + Removed(tail, address)
  {
    assert ([head] + tail)[1..] == tail;
  }

  lemma HeadIsDistinct(head: Target, tail: seq<Target>)
    requires DistinctAddresses([head] + tail)
    ensures DistinctAddresses(tail) && forall i :: 0 <= i < |tail| ==> tail[i].address != head.address
  {
    var all := [head] + tail;
    assert forall i :: 0 <= i < |tail| ==> all[i + 1] == tail[i];
    assert all[0] == head;
  }

  // ------------------------------------------------------------ the step system

  /** Where the goroutine of `Start` stands: between iterations, in the send loop, or in the receive loop. */
  datatype Phase = Idle | Sending(next: nat) | Collecting(done: nat)

  datatype Pool = Pool(
    removesFailed: bool,          // true for the health checker, false for the metrics consumer
    objects: seq<Target>,         // the shared list
    phase: Phase,
    snapshot: seq<Target>,        // the copy this iteration works on
    queue: seq<Target>,
    workers: seq<Option<Target>>, // per worker: the object it holds between receive and send
    results: seq<Report>,
    handled: seq<Report>          // the reports handled in this iteration, in order
  )

  /** A pool of `workers` processors that has not started yet. */
  ghost predicate Fresh(s: Pool) {
    && s.objects == [] && s.phase == Idle && s.snapshot == [] && s.queue == [] && s.results == [] && s.handled == []
    && forall w :: 0 <= w < |s.workers| ==> s.workers[w] == None
  }

  ghost predicate Begin(s: Pool, s': Pool) {
    && s.phase == Idle
    && s' == s.(snapshot := s.objects, handled := [], phase := if s.objects == [] then Idle else Sending(0))
  }

  ghost predicate CanSend(s: Pool) {
    s.phase.Sending? && s.phase.next < |s.snapshot| && |s.queue| < 100
  }

  ghost function Send(s: Pool): Pool
    requires CanSend(s)
  {
    var i := s.phase.next;
    s.(queue := s.queue + [s.snapshot[i]], phase := if i + 1 == |s.snapshot| then Collecting(0) else Sending(i + 1))
  }

  ghost predicate CanTake(s: Pool, w: nat) {
    w < |s.workers| && s.workers[w] == None && s.queue != []
  }

  ghost function Take(s: Pool, w: nat): Pool
    requires CanTake(s, w)
  {
    s.(queue := s.queue[1..], workers := s.workers[w := Some(s.queue[0])])
  }

  ghost predicate CanPut(s: Pool, w: nat) {
    w < |s.workers| && s.workers[w].Some? && |s.results| < 100
  }

  ghost function Put(s: Pool, w: nat, failed: bool): Pool
    requires CanPut(s, w)
  {
    s.(results := s.results + [Report(s.workers[w].value, failed)], workers := s.workers[w := None])
  }

  ghost predicate CanCollect(s: Pool) {
    s.phase.Collecting? && s.phase.done < |s.snapshot| && s.results != []
  }

  ghost function Collect(s: Pool): Pool
    requires CanCollect(s)
  {
    var j := s.phase.done;
    s.(results := s.results[1..],
       handled := s.handled + [s.results[0]],
       objects := AfterReport(s.objects, s.results[0], s.removesFailed),
       phase := if j + 1 == |s.snapshot| then Idle else Collecting(j + 1))
  }

  /** A step of the iteration itself. */
  ghost predicate PoolStep(s: Pool, s': Pool) {
    || (CanSend(s) && s' == Send(s))
    || (exists w :: CanTake(s, w) && s' == Take(s, w))
    || (exists w, failed :: CanPut(s, w) && s' == Put(s, w, failed))
    || (CanCollect(s) && s' == Collect(s))
  }

  /** A concurrent `Add` or `Remove` by another goroutine. */
  ghost predicate ListStep(s: Pool, s': Pool) {
    || (exists t :: s' == s.(objects := Added(s.objects, t)))
    || (exists t: Target :: s' == s.(objects := Removed(s.objects, t.address)))
  }

  ghost predicate Blocked(s: Pool) {
    && !CanSend(s)
    && (forall w :: !CanTake(s, w))
    && (forall w :: !CanPut(s, w))
    && !CanCollect(s)
  }

  // ------------------------------------------------------------ the invariant

  ghost function Held(workers: seq<Option<Target>>): multiset<Target> {
    if workers == [] then multiset{}
    else (if workers[0].Some? then multiset{workers[0].value} else multiset{}) + Held(workers[1..])
  }

  ghost function Targets(reports: seq<Report>): seq<Target> {
    seq(|reports|, i requires 0 <= i < |reports| => reports[i].target)
  }

  ghost function SentCount(s: Pool): nat {
    match s.phase
    case Idle => |s.snapshot|
    case Sending(next) => if next <= |s.snapshot| then next else |s.snapshot|
    case Collecting(_) => |s.snapshot|
  }

  /** Every object sent so far is in exactly one place. */
  ghost predicate Conserved(s: Pool) {
    multiset(s.snapshot[..SentCount(s)])
    == multiset(s.queue) + Held(s.workers) + multiset(Targets(s.results)) + multiset(Targets(s.handled))
  }

  ghost predicate PhaseInv(s: Pool) {
    match s.phase
    case Idle => |s.handled| == |s.snapshot|
    case Sending(next) => next < |s.snapshot| && s.handled == []
    case Collecting(done) => done < |s.snapshot| && |s.handled| == done
  }

  ghost predicate Inv(s: Pool) {
    && |s.queue| <= 100
    && |s.results| <= 100
    && PhaseInv(s)
    && Conserved(s)
    && DistinctAddresses(s.objects)
    && DistinctAddresses(s.snapshot)
  }

  lemma {:induction false} HeldNone(workers: seq<Option<Target>>)
    requires forall w :: 0 <= w < |workers| ==> workers[w] == None
    ensures Held(workers) == multiset{}
  {
    if workers != [] {
      HeldNone(workers[1..]);
    }
  }

  lemma {:induction false} HeldAll(workers: seq<Option<Target>>)
    requires forall w :: 0 <= w < |workers| ==> workers[w].Some?
    ensures |Held(workers)| == |workers|
  {
    if workers != [] {
      HeldAll(workers[1..]);
    }
  }

  lemma {:induction false} HeldAtMost(workers: seq<Option<Target>>)
    ensures |Held(workers)| <= |workers|
  {
    if workers != [] {
      HeldAtMost(workers[1..]);
    }
  }

  lemma {:induction false} HeldUpdate(workers: seq<Option<Target>>, w: nat, t: Target)
    requires w < |workers| && workers[w] == None
    ensures Held(workers[w := Some(t)]) == Held(workers) + multiset{t}
  {
    if w == 0 {
      assert workers[w := Some(t)][1..] == workers[1..];
    } else {
      HeldUpdate(workers[1..], w - 1, t);
      assert workers[w := Some(t)][1..] == workers[1..][w - 1 := Some(t)];
    }
  }

  lemma TargetsAppend(reports: seq<Report>, r: Report)
    ensures Targets(reports + [r]) == Targets(reports) + [r.target]
    ensures multiset(Targets(reports + [r])) == multiset(Targets(reports)) + multiset{r.target}
  {
    assert Targets(reports + [r]) == Targets(reports) + [r.target];
  }

  lemma TargetsTail(reports: seq<Report>)
    requires reports != []
    ensures multiset(Targets(reports)) == multiset{reports[0].target} + multiset(Targets(reports[1..]))
  {
    assert Targets(reports) == [reports[0].target] + Targets(reports[1..]);
  }

  /** Sending extends the sent part of the snapshot by the entry that joins the queue. */
  lemma SentOneMore(snapshot: seq<Target>, i: nat, queue: seq<Target>, others: multiset<Target>)
    requires i < |snapshot| && multiset(snapshot[..i]) == multiset(queue) + others
    ensures multiset(snapshot[..i + 1]) == multiset(queue + [snapshot[i]]) + others
  {
    PrefixMultiset(snapshot, i);
    assert multiset(queue + [snapshot[i]]) == multiset(queue) + multiset{snapshot[i]};
  }

  lemma SendKeepsInv(s: Pool)
    requires Inv(s) && CanSend(s)
    ensures Inv(Send(s))
  {
    hide DistinctAddresses, Held, Targets;
    var others := Held(s.workers) + multiset(Targets(s.results)) + multiset(Targets(s.handled));
    SentOneMore(s.snapshot, s.phase.next, s.queue, others);
    assert SentCount(Send(s)) == s.phase.next + 1;
  }

  lemma TakeKeepsInv(s: Pool, w: nat)
    requires Inv(s) && CanTake(s, w)
    ensures Inv(Take(s, w))
  {
    hide DistinctAddresses, Held, Targets;
    HeldUpdate(s.workers, w, s.queue[0]);
    TailMultiset(s.queue);
  }

  lemma PutKeepsInv(s: Pool, w: nat, failed: bool)
    requires Inv(s) && CanPut(s, w)
    ensures Inv(Put(s, w, failed))
  {
    hide DistinctAddresses, Held, Targets;
    var t := s.workers[w].value;
    HeldUpdate(s.workers[w := None], w, t);
    assert s.workers[w := None][w := Some(t)] == s.workers;
    TargetsAppend(s.results, Report(t, failed));
  }

  lemma CollectKeepsInv(s: Pool)
    requires Inv(s) && CanCollect(s)
    ensures Inv(Collect(s))
  {
    hide DistinctAddresses, Held, Targets;
    TargetsTail(s.results);
    TargetsAppend(s.handled, s.results[0]);
    RemovedKeepsDistinct(s.objects, s.results[0].target.address);
  }

  /** Every pool step keeps every sent object in exactly one of the four places. */
  lemma PoolStepKeepsInv(s: Pool, s': Pool)
    requires Inv(s) && PoolStep(s, s')
    ensures Inv(s')
    ensures |s'.workers| == |s.workers| && s'.snapshot == s.snapshot && s'.removesFailed == s.removesFailed
  {
    hide Inv;
    if CanSend(s) && s' == Send(s) {
      SendKeepsInv(s);
    } else if w: nat :| CanTake(s, w) && s' == Take(s, w) {
      TakeKeepsInv(s, w);
    } else if w: nat, failed: bool :| CanPut(s, w) && s' == Put(s, w, failed) {
      PutKeepsInv(s, w, failed);
    } else {
      CollectKeepsInv(s);
    }
  }

  lemma ListStepKeepsInv(s: Pool, s': Pool)
    requires Inv(s) && ListStep(s, s')
    ensures Inv(s')
  {
    if t :| s' == s.(objects := Added(s.objects, t)) {
    } else {
      var t: Target :| s' == s.(objects := Removed(s.objects, t.address));
      RemovedKeepsDistinct(s.objects, t.address);
    }
  }

  lemma IdleIsDrained(s: Pool)
    requires Inv(s) && s.phase == Idle
    ensures s.queue == [] && s.results == [] && Held(s.workers) == multiset{}
    ensures multiset(Targets(s.handled)) == multiset(s.snapshot)
  {
    assert s.snapshot[..SentCount(s)] == s.snapshot;
    assert |multiset(s.snapshot)| == |s.queue| + |Held(s.workers)| + |s.results| + |s.handled|;
  }

  lemma BeginKeepsInv(s: Pool, s': Pool)
    requires Inv(s) && Begin(s, s')
    ensures Inv(s')
  {
    IdleIsDrained(s);
    assert s'.snapshot[..0] == [];
  }

  // ------------------------------------------------------------ whole runs

  ghost predicate Step(s: Pool, s': Pool) {
    Begin(s, s') || PoolStep(s, s') || ListStep(s, s')
  }

  ghost predicate IsRun(run: seq<Pool>) {
    && run != []
    && forall i :: 0 <= i < |run| - 1 ==> Step(run[i], run[i + 1])
  }

  /** In every state of every run, over any number of iterations, nothing is lost or duplicated. */
  lemma {:induction false} EveryRunConserves(run: seq<Pool>, i: nat)
    requires IsRun(run) && Fresh(run[0]) && i < |run|
    ensures Inv(run[i])
  {
    if i == 0 {
      HeldNone(run[0].workers);
      assert run[0].snapshot[..0] == [];
    } else {
      EveryRunConserves(run, i - 1);
      assert Step(run[i - 1], run[i]);
      if Begin(run[i - 1], run[i]) {
        BeginKeepsInv(run[i - 1], run[i]);
      } else if PoolStep(run[i - 1], run[i]) {
        PoolStepKeepsInv(run[i - 1], run[i]);
      } else {
        ListStepKeepsInv(run[i - 1], run[i]);
      }
    }
  }

  // ------------------------------------------------------------ what becomes of a listed object

  /** Another goroutine takes the first object at `address` off the list. */
  ghost predicate RemovalOf(s: Pool, s': Pool, address: string) {
    s' == s.(objects := s'.objects) && FirstTaken(s.objects, s'.objects, address)
  }

  /** The health checker handles a report that the check of `address` failed. */
  ghost predicate FailureOf(s: Pool, s': Pool, address: string) {
    && s.removesFailed && s.results != [] && s.results[0].failed && s.results[0].target.address == address
    && s'.handled == s.handled + [s.results[0]] && s'.results == s.results[1..]
    && FirstTaken(s.objects, s'.objects, address)
  }

  /** A step leaves the list alone, appends one object at a new address, or is a removal or a failure. */
  lemma ListChanges(s: Pool, s': Pool)
    requires Step(s, s')
    ensures || s'.objects == s.objects
            || (exists t: Target :: (forall i :: 0 <= i < |s.objects| ==> s.objects[i].address != t.address)
                            && s'.objects == s.objects + [t] && s' == s.(objects := s'.objects))
            || (exists a :: RemovalOf(s, s', a))
            || (exists a :: FailureOf(s, s', a))
  {
    hide Removed, FirstTaken;
    if CanCollect(s) && s' == Collect(s) {
      var r := s.results[0];
      RemovedTakesFirst(s.objects, r.target.address);
      assert s'.objects == s.objects || FailureOf(s, s', r.target.address);
    } else if ListStep(s, s') {
      if t :| s' == s.(objects := Added(s.objects, t)) {
        assert s'.objects == s.objects || s'.objects == s.objects + [t];
      } else {
        var t: Target :| s' == s.(objects := Removed(s.objects, t.address));
        RemovedTakesFirst(s.objects, t.address);
        assert RemovalOf(s, s', t.address);
      }
    }
  }

  /** An object once listed stays listed until a removal of its address or a handled failure of it. */
  lemma {:induction false} StaysListed(run: seq<Pool>, i: nat, j: nat, t: Target)
    requires IsRun(run) && i <= j < |run| && t in run[i].objects
    requires forall k :: i <= k < j ==> !RemovalOf(run[k], run[k + 1], t.address) && !FailureOf(run[k], run[k + 1], t.address)
    ensures t in run[j].objects
    decreases j
  {
    hide Step, RemovalOf, FailureOf;
    if i < j {
      StaysListed(run, i, j - 1, t);
      assert Step(run[j - 1], run[j - 1 + 1]);
      assert !RemovalOf(run[j - 1], run[j - 1 + 1], t.address) && !FailureOf(run[j - 1], run[j - 1 + 1], t.address);
      ListedStep(run[j - 1], run[j], t);
    }
  }

  lemma ListedStep(s: Pool, s': Pool, t: Target)
    requires Step(s, s') && t in s.objects && !RemovalOf(s, s', t.address) && !FailureOf(s, s', t.address)
    ensures t in s'.objects
  {
    hide Step, FirstTaken;
    ListChanges(s, s');
    if a :| RemovalOf(s, s', a) {
      OthersStay(s.objects, s'.objects, a, t);
    } else if a :| FailureOf(s, s', a) {
      OthersStay(s.objects, s'.objects, a, t);
    }
  }

  lemma OthersStay(before: seq<Target>, after: seq<Target>, address: string, t: Target)
    requires FirstTaken(before, after, address) && t in before && t.address != address
    ensures t in after
  {
  }

  // ------------------------------------------------------------ progress of one iteration

  /** Four steps per object: it is sent, taken, put and collected. */
  ghost function Remaining(s: Pool): nat {
    4 * (|s.snapshot| - SentCount(s)) + 3 * |s.queue| + 2 * |Held(s.workers)| + |s.results|
  }

  lemma TakeDecreases(s: Pool, w: nat)
    requires Inv(s) && CanTake(s, w)
    ensures Remaining(Take(s, w)) == Remaining(s) - 1
  {
    HeldUpdate(s.workers, w, s.queue[0]);
  }

  lemma PutDecreases(s: Pool, w: nat, failed: bool)
    requires Inv(s) && CanPut(s, w)
    ensures Remaining(Put(s, w, failed)) == Remaining(s) - 1
  {
    var t := s.workers[w].value;
    HeldUpdate(s.workers[w := None], w, t);
    assert s.workers[w := None][w := Some(t)] == s.workers;
  }

  lemma PoolStepDecreases(s: Pool, s': Pool)
    requires Inv(s) && PoolStep(s, s')
    ensures Remaining(s') == Remaining(s) - 1
  {
    hide Conserved, DistinctAddresses, Held;
    if CanSend(s) && s' == Send(s) {
    } else if w: nat :| CanTake(s, w) && s' == Take(s, w) {
      TakeDecreases(s, w);
    } else if w: nat, failed: bool :| CanPut(s, w) && s' == Put(s, w, failed) {
      PutDecreases(s, w, failed);
    } else {
      assert CanCollect(s) && s' == Collect(s);
    }
  }

  /** The exact condition under which an iteration over n objects with p workers can end. */
  predicate Finishes(p: nat, n: nat) {
    n == 0 || (1 <= p && n <= 200 + p)
  }

  lemma Counts(s: Pool)
    requires Inv(s)
    ensures SentCount(s) == |s.queue| + |Held(s.workers)| + |s.results| + |s.handled|
  {
    assert |multiset(s.snapshot[..SentCount(s)])| == SentCount(s);
  }

  /**
   Where an iteration that cannot finish ends up.  With workers the sender waits, both channels are full and
   every worker holds an object; with none, the objects wait in the queue, and if all of them fit it is the
   receive loop that waits.
   */
  ghost predicate Stuck(s: Pool) {
    var p, n := |s.workers|, |s.snapshot|;
    if p == 0 then
      && s.results == [] && |s.queue| == (if n <= 100 then n else 100)
      && s.phase == (if n <= 100 then Collecting(0) else Sending(100))
    else
      && s.phase == Sending(200 + p)
      && |s.queue| == |s.results| == 100
      && forall w :: 0 <= w < p ==> s.workers[w].Some?
  }

  /** With no worker nothing is ever collected, so a non-empty iteration cannot end. */
  ghost predicate NothingHandledWithoutWorkers(s: Pool) {
    |s.workers| == 0 && |s.snapshot| > 0 ==> s.results == [] && s.handled == [] && s.phase != Idle
  }

  lemma BlockedWhileSending(s: Pool)
    requires Inv(s) && Blocked(s) && s.phase.Sending? && NothingHandledWithoutWorkers(s)
    ensures Stuck(s) && !Finishes(|s.workers|, |s.snapshot|)
  {
    Counts(s);
    forall w | 0 <= w < |s.workers| ensures s.workers[w].Some? {
      assert !CanTake(s, w);
    }
    HeldAll(s.workers);
    if |s.workers| > 0 {
      assert !CanPut(s, 0);
    }
    hide Conserved, DistinctAddresses, Held;
  }

  lemma BlockedWhileCollecting(s: Pool)
    requires Inv(s) && Blocked(s) && s.phase.Collecting? && NothingHandledWithoutWorkers(s)
    ensures Stuck(s) && !Finishes(|s.workers|, |s.snapshot|)
  {
    Counts(s);
    HeldAtMost(s.workers);
    if |s.workers| > 0 {
      assert !CanTake(s, 0);
      forall w | 0 <= w < |s.workers| ensures s.workers[w] == None {
        assert !CanPut(s, w);
      }
      HeldNone(s.workers);
    }
    hide Conserved, DistinctAddresses, Held;
  }

  /** Before the last object is sent at most 200 + p objects have left the sender. */
  lemma SendBound(s: Pool)
    requires Inv(s) && s.handled == []
    ensures SentCount(s) <= 200 + |s.workers|
  {
    Counts(s);
    HeldAtMost(s.workers);
  }

  /** One iteration: it begins, then takes pool steps, interleaved with any concurrent Add and Remove. */
  ghost predicate IsIteration(run: seq<Pool>) {
    && |run| >= 2
    && Inv(run[0]) && Begin(run[0], run[1])
    && forall i :: 1 <= i < |run| - 1 ==> PoolStep(run[i], run[i + 1]) || ListStep(run[i], run[i + 1])
  }

  ghost function PoolSteps(run: seq<Pool>, upTo: nat): nat
    requires 1 <= upTo < |run|
  {
    if upTo == 1 then 0
    else PoolSteps(run, upTo - 1) + (if PoolStep(run[upTo - 1], run[upTo]) then 1 else 0)
  }

  lemma PoolStepWithoutWorkers(s: Pool, s': Pool)
    requires Inv(s) && PoolStep(s, s') && NothingHandledWithoutWorkers(s)
    ensures NothingHandledWithoutWorkers(s')
  {
    hide Conserved, DistinctAddresses;
    if CanSend(s) && s' == Send(s) {
    } else if w: nat :| CanTake(s, w) && s' == Take(s, w) {
    } else if w: nat, failed: bool :| CanPut(s, w) && s' == Put(s, w, failed) {
    }
  }

  lemma ListStepFrame(s: Pool, s': Pool)
    requires ListStep(s, s')
    ensures s' == s.(objects := s'.objects)
  {
  }

  /** The part of `ListStep` that progress and the handled reports depend on is untouched. */
  lemma ListStepKeepsCounts(s: Pool, s': Pool)
    requires s' == s.(objects := s'.objects)
    ensures Remaining(s') == Remaining(s)
    ensures NothingHandledWithoutWorkers(s) ==> NothingHandledWithoutWorkers(s')
  {
    hide Held;
  }

  /** One step of an iteration, with its effect on the measure. */
  lemma IterationStep(s: Pool, s': Pool)
    requires Inv(s) && NothingHandledWithoutWorkers(s) && (PoolStep(s, s') || ListStep(s, s'))
    ensures Inv(s') && NothingHandledWithoutWorkers(s')
    ensures s'.snapshot == s.snapshot && |s'.workers| == |s.workers| && s'.removesFailed == s.removesFailed
    ensures Remaining(s') + (if PoolStep(s, s') then 1 else 0) == Remaining(s)
  {
    hide Inv, NothingHandledWithoutWorkers, PoolStep, ListStep, Remaining;
    if PoolStep(s, s') {
      PoolStepKeepsInv(s, s');
      PoolStepDecreases(s, s');
      PoolStepWithoutWorkers(s, s');
    } else {
      ListStepKeepsInv(s, s');
      ListStepFrame(s, s');
      ListStepKeepsCounts(s, s');
    }
  }

  lemma IterationStarts(s: Pool, s': Pool)
    requires Inv(s) && Begin(s, s')
    ensures Inv(s') && NothingHandledWithoutWorkers(s') && Remaining(s') == 4 * |s.objects|
    ensures s'.snapshot == s.objects && s'.workers == s.workers && s'.removesFailed == s.removesFailed
  {
    BeginKeepsInv(s, s');
    IdleIsDrained(s);
    hide Conserved, DistinctAddresses, Held;
  }

  lemma {:induction false} IterationInv(run: seq<Pool>, i: nat)
    requires IsIteration(run) && 1 <= i < |run|
    ensures Inv(run[i])
    ensures run[i].snapshot == run[0].objects && |run[i].workers| == |run[0].workers|
    ensures run[i].removesFailed == run[0].removesFailed
    ensures Remaining(run[i]) + PoolSteps(run, i) == 4 * |run[0].objects|
    ensures NothingHandledWithoutWorkers(run[i])
  {
    hide Inv, NothingHandledWithoutWorkers, PoolStep, ListStep, Remaining, Begin;
    if i == 1 {
      IterationStarts(run[0], run[1]);
    } else {
      IterationInv(run, i - 1);
      assert PoolStep(run[i - 1], run[i]) || ListStep(run[i - 1], run[i]);
      IterationStep(run[i - 1], run[i]);
    }
  }

  lemma {:induction false} TooManyNeverCollects(run: seq<Pool>, i: nat)
    requires IsIteration(run) && 1 <= i < |run|
    requires |run[0].objects| > 200 + |run[0].workers|
    ensures run[i].phase.Sending?
  {
    IterationInv(run, i);
    if i > 1 {
      TooManyNeverCollects(run, i - 1);
      IterationInv(run, i - 1);
      var s, s' := run[i - 1], run[i];
      assert PoolStep(s, s') || ListStep(s, s');
      if PoolStep(s, s') {
        SendBound(s');
      }
    }
  }

  /**
   The outcome of every maximal iteration.  No iteration takes more than four steps per object,
   so it always reaches a state where nothing more can happen; that state is the end of the
   iteration exactly when n == 0, or there is a worker and n <= 200 + p.  Otherwise it is the stuck
   state for p workers and n objects, which no other goroutine can resolve.
   */
  lemma IterationOutcome(run: seq<Pool>)
    requires IsIteration(run) && Blocked(run[|run| - 1])
    ensures var last, p, n := run[|run| - 1], |run[0].workers|, |run[0].objects|;
            && PoolSteps(run, |run| - 1) <= 4 * n
            && (last.phase == Idle <==> Finishes(p, n))
            && (last.phase == Idle ==> PoolSteps(run, |run| - 1) == 4 * n)
            && (last.phase != Idle ==> Stuck(last) && |last.workers| == p && last.snapshot == run[0].objects)
            && (forall s :: ListStep(last, s) ==> Blocked(s))
  {
    hide Inv, Stuck, Remaining, PoolStep, Blocked, NothingHandledWithoutWorkers;
    var k := |run| - 1;
    var last := run[k];
    IterationInv(run, k);
    forall s | ListStep(last, s) ensures Blocked(s) {
      ListStepFrame(last, s);
      StillBlocked(last, s);
    }
    match last.phase {
      case Idle =>
        NothingRemains(last);
        if |run[0].objects| > 200 + |run[0].workers| {
          TooManyNeverCollects(run, k);
        }
      case Sending(_) => BlockedWhileSending(last);
      case Collecting(_) => BlockedWhileCollecting(last);
    }
  }

  lemma StillBlocked(s: Pool, s': Pool)
    requires Blocked(s) && s' == s.(objects := s'.objects)
    ensures Blocked(s')
  {
    forall w | CanTake(s', w) ensures false { assert CanTake(s, w); }
    forall w | CanPut(s', w) ensures false { assert CanPut(s, w); }
  }

  lemma NothingRemains(s: Pool)
    requires Inv(s) && s.phase == Idle
    ensures Remaining(s) == 0
    ensures NothingHandledWithoutWorkers(s) ==> |s.workers| > 0 || s.snapshot == []
  {
    IdleIsDrained(s);
  }

  /** No deadlock: short of the end, an iteration that can finish always has a step to take. */
  lemma Progress(run: seq<Pool>)
    requires IsIteration(run) && Finishes(|run[0].workers|, |run[0].objects|)
    requires run[|run| - 1].phase != Idle
    ensures exists s' {:trigger PoolStep(run[|run| - 1], s')} :: PoolStep(run[|run| - 1], s')
  {
    var s := run[|run| - 1];
    if Blocked(s) {
      IterationOutcome(run);
    } else if CanSend(s) {
      assert PoolStep(s, Send(s));
    } else if CanCollect(s) {
      assert PoolStep(s, Collect(s));
    } else if w: nat :| CanTake(s, w) {
      assert PoolStep(s, Take(s, w));
    } else {
      var w: nat :| CanPut(s, w);
      assert PoolStep(s, Put(s, w, false));
    }
  }

  // ------------------------------------------------------------ the list after an iteration

  ghost function FailedAddresses(reports: seq<Report>): set<string> {
    set r | r in reports && r.failed :: r.target.address
  }

  ghost predicate ListTracksReports(s: Pool) {
    s.objects == if s.removesFailed then Without(s.snapshot, FailedAddresses(s.handled)) else s.snapshot
  }

  lemma CollectTracks(s: Pool)
    requires Inv(s) && CanCollect(s) && ListTracksReports(s)
    ensures ListTracksReports(Collect(s))
  {
    var r := s.results[0];
    var failed := FailedAddresses(s.handled);
    if r.failed {
      assert FailedAddresses(s.handled + [r]) == failed + {r.target.address};
      if s.removesFailed {
        RemovedFromWithout(s.snapshot, failed, r.target.address);
      }
    } else {
      assert FailedAddresses(s.handled + [r]) == failed;
    }
  }

  lemma PoolStepTracks(s: Pool, s': Pool)
    requires Inv(s) && PoolStep(s, s') && ListTracksReports(s)
    ensures ListTracksReports(s')
  {
    if CanCollect(s) && s' == Collect(s) {
      CollectTracks(s);
    } else if CanSend(s) && s' == Send(s) {
    } else if w: nat :| CanTake(s, w) && s' == Take(s, w) {
    }
  }

  lemma {:induction false} ListTracks(run: seq<Pool>, i: nat)
    requires IsIteration(run) && 1 <= i < |run|
    requires forall k :: 1 <= k < |run| - 1 ==> PoolStep(run[k], run[k + 1])
    ensures ListTracksReports(run[i])
  {
    if i == 1 {
      assert FailedAddresses([]) == {};
      WithoutNone(run[1].snapshot);
    } else {
      ListTracks(run, i - 1);
      IterationInv(run, i - 1);
      PoolStepTracks(run[i - 1], run[i]);
    }
  }

  /**
   When an iteration ends, every object of the snapshot was handled exactly once, both channels
   and all workers are empty, and, if nobody else touched the list, the list is the snapshot
   without the failed objects, in order (for the metrics consumer: the whole snapshot).
   */
  lemma IterationResult(run: seq<Pool>)
    requires IsIteration(run) && run[|run| - 1].phase == Idle
    ensures var last := run[|run| - 1];
            && multiset(Targets(last.handled)) == multiset(run[0].objects)
            && last.queue == [] && last.results == [] && Held(last.workers) == multiset{}
            && DistinctAddresses(last.objects)
    ensures (forall k :: 1 <= k < |run| - 1 ==> PoolStep(run[k], run[k + 1])) ==>
              var last := run[|run| - 1];
              last.objects == if last.removesFailed
                              then Without(run[0].objects, FailedAddresses(last.handled))
                              else run[0].objects
  {
    IterationInv(run, |run| - 1);
    IdleIsDrained(run[|run| - 1]);
    if forall k :: 1 <= k < |run| - 1 ==> PoolStep(run[k], run[k + 1]) {
      ListTracks(run, |run| - 1);
    }
  }
}
