/**
 Broadcasts and disconnects of the gateway's chat channels, at the grain of their locks.  A broadcast
 first fetches a member's stream and then sends to it without a lock; a disconnect closes and forgets
 the stream in one step.  Sending on a closed Go channel panics, even inside a select with a default.
 */
module StreamClosing {

  /** A stream that a broadcast has fetched and not yet sent to. */
  datatype Fetched = Nothing | Fetched(stream: nat)

  datatype Streams = Streams(
    open: map<nat, nat>,        // per player: the stream registered for it
    closed: set<nat>,
    created: nat,               // streams are numbered as they are made
    sending: map<nat, Fetched>, // per broadcast in flight
    panicked: bool
  )

  datatype Op =
    | Open(p: nat)              // `PlayerStreams.GetOrCreate`
    | Close(p: nat)             // `PlayerStreams.Remove`
    | Get(b: nat, p: nat)       // broadcast b fetches the stream of a member
    | Send(b: nat)              // and sends to it

  ghost function Sending(s: Streams, b: nat): Fetched {
    if b in s.sending then s.sending[b] else Nothing
  }

  ghost function After(s: Streams, op: Op): Streams {
    match op
    case Open(p) => if p in s.open then s else s.(open := s.open[p := s.created], created := s.created + 1)
    case Close(p) => if p in s.open then s.(open := s.open - {p}, closed := s.closed + {s.open[p]}) else s
    case Get(b, p) => s.(sending := s.sending[b := if p in s.open then Fetched(s.open[p]) else Nothing])
    case Send(b) => s.(sending := s.sending - {b}, panicked := s.panicked || Panics(s, b))
  }

  /** The stream that broadcast b is about to send to has been closed. */
  ghost predicate Panics(s: Streams, b: nat) {
    Sending(s, b).Fetched? && Sending(s, b).stream in s.closed
  }

  ghost predicate IsRun(run: seq<Streams>, ops: seq<Op>) {
    && |run| == |ops| + 1
    && run[0] == Streams(map[], {}, 0, map[], false)
    && forall i :: 0 <= i < |ops| ==> run[i + 1] == After(run[i], ops[i])
  }

  /** Registered streams are open, and no two players share one. */
  ghost predicate Inv(s: Streams) {
    && (forall p :: p in s.open ==> s.open[p] < s.created && s.open[p] !in s.closed)
    && (forall p, q :: p in s.open && q in s.open && s.open[p] == s.open[q] ==> p == q)
    && (forall n :: n in s.closed ==> n < s.created)
  }

  lemma StepKeepsInv(s: Streams, op: Op)
    requires Inv(s)
    ensures Inv(After(s, op))
  {
  }

  lemma {:induction false} EveryRunKeepsInv(run: seq<Streams>, ops: seq<Op>, k: nat)
    requires IsRun(run, ops) && k < |run|
    ensures Inv(run[k])
  {
    hide After;
    if k > 0 {
      EveryRunKeepsInv(run, ops, k - 1);
      assert run[k - 1 + 1] == After(run[k - 1], ops[k - 1]);
      StepKeepsInv(run[k - 1], ops[k - 1]);
    }
  }

  /** Between i and j broadcast b does nothing. */
  ghost predicate Waits(ops: seq<Op>, b: nat, i: nat, j: nat) {
    forall k :: i < k < j && k < |ops| ==> !(ops[k].Get? && ops[k].b == b) && !(ops[k].Send? && ops[k].b == b)
  }

  ghost predicate ClosedBetween(ops: seq<Op>, p: nat, i: nat, j: nat) {
    exists k :: i < k < j && k < |ops| && ops[k] == Close(p)
  }

  /**
   What has become of a stream that b fetched for p in step i: it is still p's registered stream until the
   first disconnect of p, and closed from then on, whatever else happens and whether or not p is back.
   */
  lemma {:induction false} FetchedStream(run: seq<Streams>, ops: seq<Op>, b: nat, p: nat, i: nat, j: nat)
    requires IsRun(run, ops) && i < j <= |ops| && ops[i] == Get(b, p) && p in run[i].open && Waits(ops, b, i, j)
    ensures Sending(run[j], b) == Fetched(run[i].open[p])
    ensures if ClosedBetween(ops, p, i, j) then run[i].open[p] in run[j].closed
            else p in run[j].open && run[j].open[p] == run[i].open[p]
    decreases j
  {
    hide Inv;
    if j == i + 1 {
      assert run[i + 1] == After(run[i], ops[i]);
    } else {
      FetchedStream(run, ops, b, p, i, j - 1);
      var op := ops[j - 1];
      assert run[j - 1 + 1] == After(run[j - 1], op);
      assert ClosedBetween(ops, p, i, j) <==> ClosedBetween(ops, p, i, j - 1) || op == Close(p) by {
        if op == Close(p) { assert i < j - 1 < j && ops[j - 1] == Close(p); }
      }
      hide ClosedBetween;
    }
  }

  /**
   A send panics exactly when the player it is meant for was disconnected after the broadcast fetched the
   stream.  A member without a stream at that moment is passed over.
   */
  lemma SendPanicsExactly(run: seq<Streams>, ops: seq<Op>, b: nat, p: nat, i: nat, j: nat)
    requires IsRun(run, ops) && i < j < |ops| && ops[i] == Get(b, p) && ops[j] == Send(b) && Waits(ops, b, i, j)
    ensures Panics(run[j], b) <==> p in run[i].open && ClosedBetween(ops, p, i, j)
    ensures run[j + 1].panicked <==> run[j].panicked || (p in run[i].open && ClosedBetween(ops, p, i, j))
  {
    assert run[j + 1] == After(run[j], ops[j]);
    if p in run[i].open {
      FetchedStream(run, ops, b, p, i, j);
      EveryRunKeepsInv(run, ops, j);
    } else {
      NothingFetched(run, ops, b, p, i, j);
    }
  }

  lemma {:induction false} NothingFetched(run: seq<Streams>, ops: seq<Op>, b: nat, p: nat, i: nat, j: nat)
    requires IsRun(run, ops) && i < j <= |ops| && ops[i] == Get(b, p) && p !in run[i].open && Waits(ops, b, i, j)
    ensures Sending(run[j], b) == Nothing
    decreases j
  {
    if j == i + 1 {
      assert run[i + 1] == After(run[i], ops[i]);
    } else {
      NothingFetched(run, ops, b, p, i, j - 1);
      assert run[j - 1 + 1] == After(run[j - 1], ops[j - 1]);
    }
  }

  /** So no send panics when every broadcast sends right after it has fetched. */
  lemma {:induction false} AtomicSendsNeverPanic(run: seq<Streams>, ops: seq<Op>, k: nat)
    requires IsRun(run, ops) && k < |run|
    requires forall j :: 0 <= j < |ops| && ops[j].Send? ==> j > 0 && ops[j - 1].Get? && ops[j - 1].b == ops[j].b
    ensures !run[k].panicked
  {
    if k > 0 {
      AtomicSendsNeverPanic(run, ops, k - 1);
      assert run[k - 1 + 1] == After(run[k - 1], ops[k - 1]);
      if ops[k - 1].Send? {
        SendPanicsExactly(run, ops, ops[k - 1].b, ops[k - 2].p, k - 2, k - 1);
      }
    }
  }
}
