/**
 The GUID allocator: any number of clients raise one Redis key with optimistic transactions.

 A call runs WATCH, GET, EXEC and starts over, a bounded number of times, when EXEC reports that
 the key was written since WATCH.  Every Redis command is one step, and steps of all clients
 interleave freely.
 */
module GuidAllocator {
  import opened Prelude

  const TWO_TO_THE_64: nat := 0x1_0000_0000_0000_0000

  /** A client inside `increaseKey`.  `since` is the number of commits when the call began. */
  datatype Client =
    | Idle
    | Ready(amount: nat, attempt: nat, since: nat)
    | Watching(amount: nat, attempt: nat, since: nat, touched: bool)
    | Computed(amount: nat, attempt: nat, since: nat, touched: bool, newMax: nat, seen: nat)

  /** A committed transaction: it gave `client` the GUIDs above `lo` up to and including `hi`. */
  datatype Commit = Commit(client: nat, amount: nat, lo: nat, hi: nat, acknowledged: bool)

  /** What a finished call returned. */
  datatype Outcome = Granted(commit: nat) | Exhausted(since: nat, at: nat) | Failed

  datatype Store = Store(
    retries: nat,
    initial: nat,             // the key's first value; a missing key reads as 0
    value: nat,
    clients: seq<Client>,
    log: seq<Commit>,
    outcomes: seq<(nat, Outcome)>
  )

  ghost predicate Init(s: Store) {
    && s.value == s.initial < TWO_TO_THE_64
    && s.log == [] && s.outcomes == []
    && forall c :: 0 <= c < |s.clients| ==> s.clients[c] == Idle
  }

  // ------------------------------------------------------------ steps

  ghost function Finish(s: Store, c: nat, o: Outcome): Store
    requires c < |s.clients|
  {
    s.(clients := s.clients[c := Idle], outcomes := s.outcomes + [(c, o)])
  }

  ghost predicate Call(s: Store, c: nat, amount: nat, s': Store) {
    && c < |s.clients| && s.clients[c] == Idle && amount < TWO_TO_THE_64
    && s' == if s.retries == 0 then Finish(s, c, Exhausted(|s.log|, |s.log|))
             else s.(clients := s.clients[c := Ready(amount, 0, |s.log|)])
  }

  ghost predicate Watch(s: Store, c: nat, s': Store) {
    && c < |s.clients| && s.clients[c].Ready?
    && var Ready(amount, attempt, since) := s.clients[c];
       s' == s.(clients := s.clients[c := Watching(amount, attempt, since, false)])
  }

  ghost predicate Get(s: Store, c: nat, s': Store) {
    && c < |s.clients| && s.clients[c].Watching?
    && var Watching(amount, attempt, since, touched) := s.clients[c];
       s' == s.(clients := s.clients[c := Computed(amount, attempt, since, touched, (s.value + amount) % TWO_TO_THE_64, s.value)])
  }

  /** Another client wrote the key: an open WATCH will make EXEC fail. */
  function Touched(k: Client): Client {
    match k
    case Watching(amount, attempt, since, _) => Watching(amount, attempt, since, true)
    case Computed(amount, attempt, since, _, newMax, seen) => Computed(amount, attempt, since, true, newMax, seen)
    case _ => k
  }

  ghost function Committed(s: Store, c: nat, acknowledged: bool): Store
    requires c < |s.clients| && s.clients[c].Computed?
  {
    var k := s.clients[c];
    s.(value := k.newMax,
       clients := seq(|s.clients|, i requires 0 <= i < |s.clients| => Touched(s.clients[i])),
       log := s.log + [Commit(c, k.amount, k.seen, k.newMax, acknowledged)])
  }

  ghost predicate Exec(s: Store, c: nat, s': Store) {
    && c < |s.clients| && s.clients[c].Computed?
    && var k := s.clients[c];
       s' == if !k.touched then Finish(Committed(s, c, true), c, Granted(|s.log|))
             else if k.attempt + 1 < s.retries then
               s.(clients := s.clients[c := Ready(k.amount, k.attempt + 1, k.since)])
             else Finish(s, c, Exhausted(k.since, |s.log|))
  }

  /** EXEC succeeded in Redis but its reply was lost: the call returns an error. */
  ghost predicate LoseReply(s: Store, c: nat, s': Store) {
    && c < |s.clients| && s.clients[c].Computed? && !s.clients[c].touched
    && s' == Finish(Committed(s, c, false), c, Failed)
  }

  /** Any other error ends the call without an effect on the key. */
  ghost predicate Abort(s: Store, c: nat, s': Store) {
    && c < |s.clients| && s.clients[c] != Idle
    && s' == Finish(s, c, Failed)
  }

  ghost predicate StepOf(s: Store, c: nat, s': Store) {
    || (exists amount: nat :: Call(s, c, amount, s')) || Watch(s, c, s') || Get(s, c, s')
    || Exec(s, c, s') || LoseReply(s, c, s') || Abort(s, c, s')
  }

  ghost predicate Step(s: Store, s': Store) {
    exists c: nat :: StepOf(s, c, s')
  }

  ghost predicate IsRun(run: seq<Store>) {
    && run != [] && Init(run[0])
    && forall i :: 0 <= i < |run| - 1 ==> Step(run[i], run[i + 1])
  }

  // ------------------------------------------------------------ the invariant

  /** Commits form one chain from the initial value to the current one. */
  ghost predicate Chained(log: seq<Commit>, initial: nat, value: nat) {
    if log == [] then value == initial
    else
      var last := log[|log| - 1];
      && last.hi == value
      && last.hi == (last.lo + last.amount) % TWO_TO_THE_64
      && Chained(log[..|log| - 1], initial, last.lo)
  }

  /** Since its call began, client `c` was overtaken by at least `n` commits, none its own. */
  ghost predicate Overtaken(log: seq<Commit>, c: nat, since: nat, n: nat) {
    && since + n <= |log|
    && forall i :: since <= i < |log| ==> log[i].client != c
  }

  ghost predicate ClientInv(s: Store, c: nat)
    requires c < |s.clients|
  {
    match s.clients[c]
    case Idle => true
    case Ready(_, attempt, since) => attempt < s.retries && Overtaken(s.log, c, since, attempt)
    case Watching(_, attempt, since, touched) =>
      attempt < s.retries && Overtaken(s.log, c, since, if touched then attempt + 1 else attempt)
    case Computed(amount, attempt, since, touched, newMax, seen) =>
      && attempt < s.retries
      && Overtaken(s.log, c, since, if touched then attempt + 1 else attempt)
      && newMax == (seen + amount) % TWO_TO_THE_64
      && (!touched ==> seen == s.value)
  }

  ghost predicate OutcomeInv(s: Store, c: nat, o: Outcome) {
    match o
    case Granted(i) => i < |s.log| && s.log[i].client == c && s.log[i].acknowledged
    case Exhausted(since, at) =>
      since + s.retries <= at <= |s.log| && forall i :: since <= i < at ==> s.log[i].client != c
    case Failed => true
  }

  ghost predicate Inv(s: Store) {
    && s.value < TWO_TO_THE_64 && s.initial < TWO_TO_THE_64
    && Chained(s.log, s.initial, s.value)
    && (forall c :: 0 <= c < |s.clients| ==> ClientInv(s, c))
    && (forall i :: 0 <= i < |s.outcomes| ==> OutcomeInv(s, s.outcomes[i].0, s.outcomes[i].1))
  }

  lemma CommittedKeepsInv(s: Store, c: nat, acknowledged: bool, o: Outcome)
    requires Inv(s) && c < |s.clients| && s.clients[c].Computed? && !s.clients[c].touched
    requires o == Failed || (o == Granted(|s.log|) && acknowledged)
    ensures Inv(Finish(Committed(s, c, acknowledged), c, o))
  {
    var s' := Finish(Committed(s, c, acknowledged), c, o);
    assert ClientInv(s, c);
    assert s'.log[..|s'.log| - 1] == s.log;
    forall d | 0 <= d < |s'.clients| ensures ClientInv(s', d) {
      assert ClientInv(s, d);
    }
    forall i | 0 <= i < |s'.outcomes| ensures OutcomeInv(s', s'.outcomes[i].0, s'.outcomes[i].1) {
      if i < |s.outcomes| {
        assert OutcomeInv(s, s.outcomes[i].0, s.outcomes[i].1);
      }
    }
  }

  /** Replacing one client, and possibly adding an outcome, leaves everything else as it was. */
  lemma LocalKeepsInv(s: Store, s': Store, c: nat, o: Option<Outcome>)
    requires Inv(s) && c < |s.clients| && |s'.clients| == |s.clients|
    requires s' == s.(clients := s'.clients, outcomes := s'.outcomes)
    requires s'.clients == s.clients[c := s'.clients[c]] && ClientInv(s', c)
    requires s'.outcomes == s.outcomes + (if o.Some? then [(c, o.value)] else [])
    requires o.Some? ==> OutcomeInv(s, c, o.value)
    ensures Inv(s')
  {
    forall d | 0 <= d < |s'.clients| ensures ClientInv(s', d) {
      assert ClientInv(s, d);
    }
    forall i | 0 <= i < |s'.outcomes| ensures OutcomeInv(s', s'.outcomes[i].0, s'.outcomes[i].1) {
      if i < |s.outcomes| {
        assert OutcomeInv(s, s.outcomes[i].0, s.outcomes[i].1);
      }
    }
  }

  lemma StepKeepsInv(s: Store, s': Store)
    requires Inv(s) && Step(s, s')
    ensures Inv(s') && s'.initial == s.initial && s'.retries == s.retries
  {
    var c: nat :| StepOf(s, c, s');
    assert ClientInv(s, c);
    assert s.outcomes + [] == s.outcomes;
    var k := s.clients[c];
    if amount: nat :| Call(s, c, amount, s') {
      LocalKeepsInv(s, s', c, if s.retries == 0 then Some(Exhausted(|s.log|, |s.log|)) else None);
    } else if Watch(s, c, s') || Get(s, c, s') {
      LocalKeepsInv(s, s', c, None);
    } else if Exec(s, c, s') {
      if !k.touched {
        CommittedKeepsInv(s, c, true, Granted(|s.log|));
      } else {
        LocalKeepsInv(s, s', c, if k.attempt + 1 < s.retries then None else Some(Exhausted(k.since, |s.log|)));
      }
    } else if LoseReply(s, c, s') {
      CommittedKeepsInv(s, c, false, Failed);
    } else {
      LocalKeepsInv(s, s', c, Some(Failed));
    }
  }

  lemma {:induction false} EveryRunKeepsInv(run: seq<Store>, i: nat)
    requires IsRun(run) && i < |run|
    ensures Inv(run[i]) && run[i].initial == run[0].initial && run[i].retries == run[0].retries
  {
    if i > 0 {
      EveryRunKeepsInv(run, i - 1);
      StepKeepsInv(run[i - 1], run[i]);
    }
  }

  // ------------------------------------------------------------ the allocated ranges

  ghost function Total(log: seq<Commit>): nat {
    if log == [] then 0 else Total(log[..|log| - 1]) + log[|log| - 1].amount
  }

  /** The GUID lies in the range (result - amount, result] of this commit. */
  ghost predicate InRange(c: Commit, guid: nat) {
    c.lo < guid <= c.hi
  }

  ghost predicate Allocated(log: seq<Commit>, guid: nat) {
    exists i :: 0 <= i < |log| && InRange(log[i], guid)
  }

  /** Without overflow the chain splits (initial, value] into consecutive ranges. */
  lemma {:induction false} ChainPartitions(log: seq<Commit>, initial: nat, value: nat)
    requires Chained(log, initial, value) && initial + Total(log) < TWO_TO_THE_64
    ensures value == initial + Total(log)
    ensures forall i :: 0 <= i < |log| ==> initial <= log[i].lo && log[i].hi == log[i].lo + log[i].amount <= value
    ensures forall i, j :: 0 <= i < j < |log| ==> log[i].hi <= log[j].lo
    ensures forall guid: nat {:trigger Allocated(log, guid)} :: initial < guid <= value ==> Allocated(log, guid)
  {
    if log != [] {
      var n := |log| - 1;
      var before, last := log[..n], log[n];
      ChainPartitions(before, initial, last.lo);
      forall guid: nat | initial < guid <= value ensures Allocated(log, guid) {
        if guid <= last.lo {
          assert Allocated(before, guid);
          var i :| 0 <= i < |before| && InRange(before[i], guid);
          assert InRange(log[i], guid);
        } else {
          assert InRange(log[n], guid);
        }
      }
    }
  }

  /**
   In every run whose total does not overflow 64 bits, the committed ranges are pairwise disjoint
   and together are exactly the GUIDs above the initial value up to the current one; and every
   granted call holds one of them.
   */
  lemma RangesPartition(run: seq<Store>, k: nat)
    requires IsRun(run) && k < |run|
    requires run[0].initial + Total(run[k].log) < TWO_TO_THE_64
    ensures var s := run[k];
            && (forall guid: nat :: run[0].initial < guid <= s.value <==> Allocated(s.log, guid))
            && (forall i, j, guid: nat ::
                  0 <= i < |s.log| && 0 <= j < |s.log| && InRange(s.log[i], guid) && InRange(s.log[j], guid) ==> i == j)
            && (forall i :: 0 <= i < |s.log| ==> s.log[i].lo == s.log[i].hi - s.log[i].amount)
  {
    EveryRunKeepsInv(run, k);
    ChainPartitions(run[k].log, run[0].initial, run[k].value);
  }

  /** The GUIDs no caller was told about: those of commits whose reply was lost. */
  ghost predicate Leaked(s: Store, guid: nat) {
    exists i :: 0 <= i < |s.log| && !s.log[i].acknowledged && InRange(s.log[i], guid)
  }

  ghost predicate HeldByCaller(s: Store, guid: nat) {
    exists i :: 0 <= i < |s.log| && s.log[i].acknowledged && InRange(s.log[i], guid)
  }

  /**
   Every GUID up to the current value is held by exactly one caller or lost with a reply; so the
   granted ranges alone cover everything if and only if no non-empty commit lost its reply.
   */
  lemma GrantedRangesCover(run: seq<Store>, k: nat)
    requires IsRun(run) && k < |run|
    requires run[0].initial + Total(run[k].log) < TWO_TO_THE_64
    ensures var s := run[k];
            && (forall guid: nat :: run[0].initial < guid <= s.value ==> (HeldByCaller(s, guid) <==> !Leaked(s, guid)))
            && ((forall guid: nat :: run[0].initial < guid <= s.value ==> HeldByCaller(s, guid))
                <==> forall i :: 0 <= i < |s.log| && !s.log[i].acknowledged ==> s.log[i].amount == 0)
  {
    var s := run[k];
    EveryRunKeepsInv(run, k);
    ChainPartitions(s.log, run[0].initial, s.value);
    RangesPartition(run, k);
    forall guid: nat | run[0].initial < guid <= s.value
      ensures HeldByCaller(s, guid) <==> !Leaked(s, guid)
    {
      assert Allocated(s.log, guid);
      var i :| 0 <= i < |s.log| && InRange(s.log[i], guid);
    }
    if i :| 0 <= i < |s.log| && !s.log[i].acknowledged && s.log[i].amount > 0 {
      assert InRange(s.log[i], s.log[i].hi);
      assert Leaked(s, s.log[i].hi);
    }
  }

  /**
   A call that ran out of retries allocated nothing and was overtaken, between its start and its
   end, by at least `retries` commits of other clients.
   */
  lemma ExhaustedWasOvertaken(run: seq<Store>, k: nat, i: nat)
    requires IsRun(run) && k < |run| && i < |run[k].outcomes| && run[k].outcomes[i].1.Exhausted?
    ensures var s := run[k];
            var (c, o) := s.outcomes[i];
            && o.at - o.since >= run[0].retries
            && o.at <= |s.log|
            && forall j :: o.since <= j < o.at ==> s.log[j].client != c
  {
    EveryRunKeepsInv(run, k);
    assert OutcomeInv(run[k], run[k].outcomes[i].0, run[k].outcomes[i].1);
  }

  /** Two different granted calls never share a GUID, and each result is the top of its own range. */
  ghost predicate GrantsDistinct(s: Store) {
    forall i, j ::
      0 <= i < j < |s.outcomes| && s.outcomes[i].1.Granted? && s.outcomes[j].1.Granted?
      ==> s.outcomes[i].1.commit < s.outcomes[j].1.commit
  }

  lemma StepOutcomes(s: Store, s': Store)
    requires Step(s, s')
    ensures s'.outcomes == s.outcomes ||
            (|s'.outcomes| == |s.outcomes| + 1 && s'.outcomes[..|s.outcomes|] == s.outcomes)
    ensures |s'.outcomes| > |s.outcomes| && s'.outcomes[|s.outcomes|].1.Granted? ==>
              s'.outcomes[|s.outcomes|].1.commit == |s.log|
  {
    var c: nat :| StepOf(s, c, s');
    if amount: nat :| Call(s, c, amount, s') {
    }
  }

  lemma StepKeepsGrants(s: Store, s': Store)
    requires Inv(s) && GrantsDistinct(s) && Step(s, s')
    ensures GrantsDistinct(s')
  {
    hide Chained, ClientInv;
    StepOutcomes(s, s');
    forall i, j | 0 <= i < j < |s'.outcomes| && s'.outcomes[i].1.Granted? && s'.outcomes[j].1.Granted?
      ensures s'.outcomes[i].1.commit < s'.outcomes[j].1.commit
    {
      if j == |s.outcomes| {
        assert OutcomeInv(s, s.outcomes[i].0, s.outcomes[i].1);
      }
    }
  }

  lemma {:induction false} GrantsAreDistinct(run: seq<Store>, k: nat)
    requires IsRun(run) && k < |run|
    ensures GrantsDistinct(run[k])
  {
    if k > 0 {
      GrantsAreDistinct(run, k - 1);
      EveryRunKeepsInv(run, k - 1);
      StepKeepsGrants(run[k - 1], run[k]);
    }
  }

  // ------------------------------------------------------------ the retry loop of one call

  ghost function Raised(value: nat, amounts: seq<nat>): nat
    decreases amounts
  {
    if amounts == [] then value else Raised((value + amounts[0]) % TWO_TO_THE_64, amounts[1..])
  }

  /** What others commit during one attempt: between WATCH and GET, and between GET and EXEC. */
  datatype Rivals = Rivals(beforeGet: seq<nat>, beforeExec: seq<nat>)

  ghost predicate Quiet(r: Rivals) {
    r.beforeGet == [] && r.beforeExec == []
  }

  ghost function RaisedByRounds(value: nat, rounds: seq<Rivals>): nat
    decreases rounds
  {
    if rounds == [] then value
    else RaisedByRounds(Raised(Raised(value, rounds[0].beforeGet), rounds[0].beforeExec), rounds[1..])
  }

  /** The first attempt nobody interferes with. */
  ghost function FirstQuiet(rivals: seq<Rivals>): (k: nat)
    ensures k <= |rivals|
    ensures k < |rivals| ==> Quiet(rivals[k])
    ensures forall i :: 0 <= i < k ==> !Quiet(rivals[i])
  {
    if rivals == [] || Quiet(rivals[0]) then 0 else 1 + FirstQuiet(rivals[1..])
  }

  /** One key, with the number of writes to it: WATCH notes the number, EXEC compares it. */
  class Key {
    var value: nat
    var writes: nat

    constructor ()
      ensures value == 0
    {
      value, writes := 0, 0;
    }

    method Set(v: nat)
      modifies this
      ensures value == v && writes == old(writes) + 1
    {
      value, writes := v, writes + 1;
    }

    /** What other clients commit meanwhile. */
    method Interfere(amounts: seq<nat>)
      modifies this
      ensures value == Raised(old(value), amounts) && writes == old(writes) + |amounts|
    {
      var i := 0;
      assert amounts[0..] == amounts;
      while i < |amounts|
        invariant 0 <= i <= |amounts| && writes == old(writes) + i
        invariant Raised(value, amounts[i..]) == Raised(old(value), amounts)
      {
        assert amounts[i..][1..] == amounts[i + 1..];
        Set((value + amounts[i]) % TWO_TO_THE_64);
        i := i + 1;
      }
    }
  }

  /**
   One call, when `rivals[i]` is what others commit during attempt i.  It succeeds at the first
   undisturbed attempt, on top of everything committed before, and otherwise leaves only the
   rivals' work.  A commit between WATCH and GET fails the attempt although GET saw its value.
   */
  method IncreaseKey(key: Key, retries: nat, amount: nat, rivals: seq<Rivals>) returns (r: Option<nat>)
    requires |rivals| == retries
    modifies key
    ensures var k := FirstQuiet(rivals);
            var base := RaisedByRounds(old(key.value), rivals[..k]);
            if k < retries then r == Some((base + amount) % TWO_TO_THE_64) && key.value == r.value
            else r == None && key.value == base
  {
    var newMaxAmount := 0;
    var i := 0;
    ghost var k, start := FirstQuiet(rivals), key.value;
    while i < retries
      invariant 0 <= i <= retries && i <= k
      invariant key.value == RaisedByRounds(start, rivals[..i])
    {
      var watched := key.writes;
      key.Interfere(rivals[i].beforeGet);
      newMaxAmount := (key.value + amount) % TWO_TO_THE_64;
      key.Interfere(rivals[i].beforeExec);
      RoundsAppend(start, rivals[..i], rivals[i]);
      assert rivals[..i + 1] == rivals[..i] + [rivals[i]];
      if key.writes == watched {
        assert Quiet(rivals[i]);
        key.Set(newMaxAmount);
        return Some(newMaxAmount);
      }
      i := i + 1;
    }
    return None;
  }

  lemma {:induction false} RoundsAppend(value: nat, rounds: seq<Rivals>, last: Rivals)
    ensures RaisedByRounds(value, rounds + [last])
            == Raised(Raised(RaisedByRounds(value, rounds), last.beforeGet), last.beforeExec)
    decreases rounds
  {
    if rounds == [] {
      assert [last][1..] == [];
    } else {
      RoundsAppend(Raised(Raised(value, rounds[0].beforeGet), rounds[0].beforeExec), rounds[1..], last);
      assert (rounds + [last])[1..] == rounds[1..] + [last];
    }
  }
}
