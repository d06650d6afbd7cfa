/**
 Friend and ignore lists of one player.  Adding reads the player's rows, checks the limit and only
 then inserts; calls run concurrently, so several may pass the check before any of them inserts.
 */
module FriendLimits {
  datatype Kind = Friend | Ignore

  /** One row of the social table; its key is the player, the other player and the kind. */
  datatype Row = Row(guid: nat, kind: Kind)

  /** What one call in flight has done: nothing, been called, or passed the check. */
  datatype Call = Free | Called(guid: nat, kind: Kind) | Checked(guid: nat, kind: Kind)

  datatype Social = Social(player: nat, rows: set<Row>, calls: seq<Call>)

  ghost function OfKind(rows: set<Row>, kind: Kind): set<Row> {
    set r | r in rows && r.kind == kind
  }

  // ------------------------------------------------------------ steps

  datatype Verdict = Self | Already | Full | Proceed

  /** The checks before the insert, on the rows that were read. */
  ghost function Judged(player: nat, rows: set<Row>, guid: nat, kind: Kind): Verdict {
    if player == guid then Self
    else if Row(guid, kind) in rows then Already
    else if |OfKind(rows, kind)| >= 50 then Full
    else Proceed
  }

  datatype Op =
    | Call(i: nat, guid: nat, kind: Kind)   // a call starts in slot i
    | Check(i: nat)                         // it reads the rows and decides
    | Insert(i: nat, stored: bool)          // its insert, which may fail
    | Remove(guid: nat, kind: Kind)

  ghost predicate Enabled(s: Social, op: Op) {
    match op
    case Call(i, _, _) => i < |s.calls| && s.calls[i].Free?
    case Check(i) => i < |s.calls| && s.calls[i].Called?
    case Insert(i, _) => i < |s.calls| && s.calls[i].Checked?
    case Remove(_, _) => true
  }

  ghost function After(s: Social, op: Op): Social
    requires Enabled(s, op)
  {
    match op
    case Call(i, guid, kind) => s.(calls := s.calls[i := Called(guid, kind)])
    case Check(i) =>
      var c := s.calls[i];
      s.(calls := s.calls[i := if Judged(s.player, s.rows, c.guid, c.kind) == Proceed then Checked(c.guid, c.kind) else Free])
    case Insert(i, stored) =>
      var c := s.calls[i];
      s.(calls := s.calls[i := Free], rows := if stored then s.rows + {Row(c.guid, c.kind)} else s.rows)
    case Remove(guid, kind) => s.(rows := s.rows - {Row(guid, kind)})
  }

  /** How many calls of a kind have passed the check and not yet inserted. */
  ghost function Pending(calls: seq<Call>, kind: Kind): (n: nat)
    ensures n <= |calls|
  {
    if calls == [] then 0
    else (if calls[0].Checked? && calls[0].kind == kind then 1 else 0) + Pending(calls[1..], kind)
  }

  lemma {:induction false} PendingUpdate(calls: seq<Call>, i: nat, c: Call, kind: Kind)
    requires i < |calls|
    ensures Pending(calls[i := c], kind) == Pending(calls, kind)
              - (if calls[i].Checked? && calls[i].kind == kind then 1 else 0)
              + (if c.Checked? && c.kind == kind then 1 else 0)
  {
    if i == 0 {
      assert calls[i := c][1..] == calls[1..];
    } else {
      PendingUpdate(calls[1..], i - 1, c, kind);
      assert calls[i := c][1..] == calls[1..][i - 1 := c];
    }
  }

  // ------------------------------------------------------------ the bound

  /** With k calls in flight, rows and passed checks together exceed 49 by at most k; nobody lists themselves. */
  ghost predicate Bounded(s: Social) {
    && (forall kind :: |OfKind(s.rows, kind)| + Pending(s.calls, kind) <= 49 + |s.calls|)
    && (forall kind :: Row(s.player, kind) !in s.rows)
    && (forall i :: 0 <= i < |s.calls| && s.calls[i].Checked? ==> s.calls[i].guid != s.player)
  }

  lemma OfKindGrows(rows: set<Row>, r: Row, kind: Kind)
    ensures |OfKind(rows + {r}, kind)| <= |OfKind(rows, kind)| + (if r.kind == kind then 1 else 0)
    ensures |OfKind(rows - {r}, kind)| <= |OfKind(rows, kind)|
    ensures r !in rows && r.kind == kind ==> |OfKind(rows + {r}, kind)| == |OfKind(rows, kind)| + 1
  {
    if r.kind == kind {
      assert OfKind(rows + {r}, kind) == OfKind(rows, kind) + {r};
      assert OfKind(rows - {r}, kind) == OfKind(rows, kind) - {r};
    } else {
      assert OfKind(rows + {r}, kind) == OfKind(rows, kind);
      assert OfKind(rows - {r}, kind) == OfKind(rows, kind);
    }
  }

  lemma StepKeepsBounded(s: Social, op: Op)
    requires Bounded(s) && Enabled(s, op)
    ensures Bounded(After(s, op)) && After(s, op).player == s.player && |After(s, op).calls| == |s.calls|
  {
    var s' := After(s, op);
    forall kind ensures |OfKind(s'.rows, kind)| + Pending(s'.calls, kind) <= 49 + |s'.calls| {
      match op {
        case Call(i, guid, k) => PendingUpdate(s.calls, i, s'.calls[i], kind);
        case Check(i) => PendingUpdate(s.calls, i, s'.calls[i], kind);
        case Insert(i, stored) =>
          PendingUpdate(s.calls, i, Free, kind);
          OfKindGrows(s.rows, Row(s.calls[i].guid, s.calls[i].kind), kind);
        case Remove(guid, k) => OfKindGrows(s.rows, Row(guid, k), kind);
      }
    }
  }

  ghost predicate IsRun(run: seq<Social>, ops: seq<Op>) {
    && |run| == |ops| + 1
    && run[0].rows == {} && (forall i :: 0 <= i < |run[0].calls| ==> run[0].calls[i] == Free) && run[0].calls != []
    && forall i :: 0 <= i < |ops| ==> Enabled(run[i], ops[i]) && run[i + 1] == After(run[i], ops[i])
  }

  /** With at most k calls in flight, and any removals between, a list never has more than 49 + k rows, and never its owner. */
  lemma {:induction false} EveryRunBounded(run: seq<Social>, ops: seq<Op>, n: nat)
    requires IsRun(run, ops) && n < |run|
    ensures Bounded(run[n]) && run[n].player == run[0].player && |run[n].calls| == |run[0].calls|
    ensures forall kind :: |OfKind(run[n].rows, kind)| <= 49 + |run[0].calls| && Row(run[0].player, kind) !in run[n].rows
  {
    hide After, Enabled;
    if n == 0 {
      forall kind ensures Pending(run[0].calls, kind) == 0 && OfKind(run[0].rows, kind) == {} {
        NonePending(run[0].calls, kind);
      }
    } else {
      EveryRunBounded(run, ops, n - 1);
      assert Enabled(run[n - 1], ops[n - 1]) && run[n - 1 + 1] == After(run[n - 1], ops[n - 1]);
      StepKeepsBounded(run[n - 1], ops[n - 1]);
    }
  }

  lemma {:induction false} NonePending(calls: seq<Call>, kind: Kind)
    requires forall i :: 0 <= i < |calls| ==> calls[i] == Free
    ensures Pending(calls, kind) == 0
  {
    if calls != [] { NonePending(calls[1..], kind); }
  }

  // ------------------------------------------------------------ the bound is attained

  /** Rows of one kind for n players other than the list's owner. */
  ghost function FirstRows(player: nat, n: nat, kind: Kind): (rows: set<Row>)
    ensures forall r :: r in rows <==> r.kind == kind && player < r.guid <= player + n
    decreases n
  {
    if n == 0 then {} else FirstRows(player, n - 1, kind) + {Row(player + n, kind)}
  }

  lemma {:induction false} FirstRowsCount(player: nat, n: nat, kind: Kind)
    ensures |OfKind(FirstRows(player, n, kind), kind)| == n
    decreases n
  {
    if n == 0 {
      assert OfKind(FirstRows(player, 0, kind), kind) == {};
    } else {
      FirstRowsCount(player, n - 1, kind);
      OfKindGrows(FirstRows(player, n - 1, kind), Row(player + n, kind), kind);
    }
  }

  /** A call for a new player passes the check while there are at most 49 rows. */
  lemma NewcomerPasses(player: nat, n: nat, guid: nat, kind: Kind)
    requires n < 50 && guid > player + n
    ensures Judged(player, FirstRows(player, n, kind), guid, kind) == Proceed
  {
    FirstRowsCount(player, n, kind);
  }

  /** A run goes on with any enabled step. */
  lemma Extended(run: seq<Social>, ops: seq<Op>, op: Op) returns (longer: seq<Social>, more: seq<Op>)
    requires IsRun(run, ops) && Enabled(run[|ops|], op)
    ensures more == ops + [op] && longer == run + [After(run[|ops|], op)] && IsRun(longer, more)
  {
    hide After, Enabled;
    longer, more := run + [After(run[|ops|], op)], ops + [op];
    forall i | 0 <= i < |more| ensures Enabled(longer[i], more[i]) && longer[i + 1] == After(longer[i], more[i]) {
      assert i < |ops| ==> Enabled(run[i], ops[i]) && run[i + 1] == After(run[i], ops[i]);
    }
  }

  /** One call goes through its check; the state before and after, with the other slots as they were. */
  lemma CheckedIn(run: seq<Social>, ops: seq<Op>, i: nat, n: nat, guid: nat, kind: Kind)
    returns (longer: seq<Social>, more: seq<Op>)
    requires IsRun(run, ops) && i < |run[|ops|].calls| && run[|ops|].calls[i] == Free
    requires n < 50 && run[|ops|].rows == FirstRows(run[|ops|].player, n, kind) && guid > run[|ops|].player + n
    ensures IsRun(longer, more) && longer[0] == run[0]
    ensures longer[|more|] == run[|ops|].(calls := run[|ops|].calls[i := Checked(guid, kind)])
  {
    hide IsRun, FirstRows, Judged;
    RunLength(run, ops);
    NewcomerPasses(run[|ops|].player, n, guid, kind);
    longer, more := Extended(run, ops, Call(i, guid, kind));
    longer, more := Extended(longer, more, Check(i));
  }

  lemma RunLength(run: seq<Social>, ops: seq<Op>)
    requires IsRun(run, ops)
    ensures |run| == |ops| + 1 && run[0].rows == {} && run[0].calls != []
  {
  }

  ghost predicate AllFree(s: Social) {
    forall i :: 0 <= i < |s.calls| ==> s.calls[i] == Free
  }

  lemma NewRun(player: nat, k: nat) returns (run: seq<Social>, ops: seq<Op>)
    requires k > 0
    ensures IsRun(run, ops) && ops == [] && |run| == 1 && |run[0].calls| == k
    ensures run[0] == Social(player, {}, run[0].calls) && AllFree(run[0])
  {
    run, ops := [Social(player, {}, seq(k, _ => Free))], [];
  }

  /** One call after the other fills the list with n <= 49 rows. */
  lemma {:induction false} FilledUp(player: nat, k: nat, kind: Kind, n: nat) returns (run: seq<Social>, ops: seq<Op>)
    requires k > 0 && n < 50
    ensures IsRun(run, ops) && |run[0].calls| == k
    ensures run[|ops|] == Social(player, FirstRows(player, n, kind), run[0].calls) && AllFree(run[|ops|])
    decreases n
  {
    hide IsRun;
    if n == 0 {
      run, ops := NewRun(player, k);
    } else {
      run, ops := FilledUp(player, k, kind, n - 1);
      RunLength(run, ops);
      var start := run[0].calls;
      run, ops := CheckedIn(run, ops, 0, n - 1, player + n, kind);
      RunLength(run, ops);
      run, ops := Extended(run, ops, Insert(0, true));
      assert run[|ops|].calls == start;
    }
  }

  /** At 49 rows the first m calls all pass the check before any inserts. */
  lemma {:induction false} AllChecked(player: nat, k: nat, kind: Kind, m: nat) returns (run: seq<Social>, ops: seq<Op>)
    requires 0 < k && m <= k
    ensures IsRun(run, ops) && |run[0].calls| == k && |run[|ops|].calls| == k && run[|ops|].player == player
    ensures run[|ops|].rows == FirstRows(player, 49, kind)
    ensures forall i :: 0 <= i < k ==> run[|ops|].calls[i] == if i < m then Checked(player + 50 + i, kind) else Free
    decreases m
  {
    hide IsRun, FirstRows;
    if m == 0 {
      run, ops := FilledUp(player, k, kind, 49);
    } else {
      run, ops := AllChecked(player, k, kind, m - 1);
      RunLength(run, ops);
      run, ops := CheckedIn(run, ops, m - 1, 49, player + 50 + m - 1, kind);
      RunLength(run, ops);
    }
  }

  /** Then m of them insert. */
  lemma {:induction false} AllInserted(player: nat, k: nat, kind: Kind, m: nat) returns (run: seq<Social>, ops: seq<Op>)
    requires 0 < k && m <= k
    ensures IsRun(run, ops) && |run[0].calls| == k && |run[|ops|].calls| == k && run[|ops|].player == player
    ensures run[|ops|].rows == FirstRows(player, 49 + m, kind)
    ensures forall i :: m <= i < k ==> run[|ops|].calls[i] == Checked(player + 50 + i, kind)
    decreases m
  {
    hide IsRun;
    if m == 0 {
      run, ops := AllChecked(player, k, kind, k);
    } else {
      run, ops := AllInserted(player, k, kind, m - 1);
      RunLength(run, ops);
      run, ops := Extended(run, ops, Insert(m - 1, true));
    }
  }

  /**
   The bound cannot be improved: for every player, either list and every k there is a run from the empty
   list with k calls in flight that ends with exactly 49 + k rows.
   */
  lemma BoundAttained(player: nat, k: nat, kind: Kind)
    requires k > 0
    ensures exists run: seq<Social>, ops: seq<Op> ::
              && IsRun(run, ops) && |run[0].calls| == k && run[|ops|].player == player
              && |OfKind(run[|ops|].rows, kind)| == 49 + k
  {
    hide IsRun, FirstRows, OfKind;
    var run, ops := AllInserted(player, k, kind, k);
    FirstRowsCount(player, 49 + k, kind);
  }

  // ------------------------------------------------------------ the counting loop

  ghost function RowSet(entries: seq<Row>): set<Row> {
    set r | r in entries
  }

  /** The part of `AddFriend` and `AddIgnore` before the insert. */
  method CheckLimit(player: nat, guid: nat, kind: Kind, entries: seq<Row>) returns (verdict: Verdict)
    requires forall i, j :: 0 <= i < j < |entries| ==> entries[i] != entries[j]
    ensures verdict == Judged(player, RowSet(entries), guid, kind)
    ensures verdict == Self <==> player == guid
    ensures verdict == Already <==> player != guid && Row(guid, kind) in entries
    ensures verdict == Full <==>
              player != guid && Row(guid, kind) !in entries && |set r | r in entries && r.kind == kind| >= 50
  {
    assert OfKind(RowSet(entries), kind) == set r | r in entries && r.kind == kind;
    if player == guid {
      return Self;
    }
    var count := 0;
    var i := 0;
    while i < |entries|
      invariant i <= |entries| && count == |OfKind(RowSet(entries[..i]), kind)|
      invariant Row(guid, kind) !in entries[..i]
    {
      CountOneMore(entries, i, kind);
      if entries[i].kind == kind {
        if entries[i].guid == guid {
          assert entries[i] == Row(guid, kind);
          return Already;
        }
        count := count + 1;
      }
      i := i + 1;
    }
    assert entries[..i] == entries;
    return if count >= 50 then Full else Proceed;
  }

  lemma CountOneMore(entries: seq<Row>, i: nat, kind: Kind)
    requires i < |entries| && forall i, j :: 0 <= i < j < |entries| ==> entries[i] != entries[j]
    ensures |OfKind(RowSet(entries[..i + 1]), kind)|
            == |OfKind(RowSet(entries[..i]), kind)| + (if entries[i].kind == kind then 1 else 0)
  {
    var before := RowSet(entries[..i]);
    assert RowSet(entries[..i + 1]) == before + {entries[i]};
    OfKindGrows(before, entries[i], kind);
    if entries[i].kind != kind {
      assert OfKind(before + {entries[i]}, kind) == OfKind(before, kind);
    }
  }
}
