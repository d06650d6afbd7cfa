/**
 The dispatch loop of an authentication session and the status changes of its handlers.  What comes
 from outside, the client's bytes, the account lookup and the success of writes, is part of a request.
 Whether a proof is right for an account is a predicate the session does not look into.
 */
module AuthSession {
  import opened Prelude

  datatype Status = AwaitChallenge | AwaitLogonProof | AwaitReconnectProof | Authed | Closed

  datatype Command = LogonChallenge | LogonProof | ReconnectChallenge | ReconnectProof | RealmList

  /** The identity of an account and its session key, which a logon proof replaces. */
  datatype Account = Account(username: string, key: nat)

  datatype Lookup = LookupFails | NoAccount | Found(account: Account)

  /** An opcode byte and what happens while it is handled. */
  datatype Request = Request(
    opcode: nat,
    read: bool,          // the payload arrives
    lookup: Lookup,      // the account of the challenge's name
    proof: nat,          // the client's proof
    newKey: nat,         // the session key a right logon proof yields
    updated: bool,       // the account can be stored
    realms: bool,        // the realm list can be built
    written: bool        // the answer can be sent
  )

  /** The table of commands. */
  function CommandOf(opcode: nat): Option<Command> {
    if opcode == 0 then Some(LogonChallenge)
    else if opcode == 1 then Some(LogonProof)
    else if opcode == 2 then Some(ReconnectChallenge)
    else if opcode == 3 then Some(ReconnectProof)
    else if opcode == 0x10 then Some(RealmList)
    else None
  }

  function ValidStatus(cmd: Command): Status {
    match cmd
    case LogonChallenge => AwaitChallenge
    case LogonProof => AwaitLogonProof
    case ReconnectChallenge => AwaitChallenge
    case ReconnectProof => AwaitReconnectProof
    case RealmList => Authed
  }

  /** One accepted opcode and its command; `done` when the handler reached the end, `account` the one it worked with. */
  datatype Entry = Entry(opcode: nat, cmd: Command, done: bool, account: Option<Account>, proof: nat)

  // ------------------------------------------------------------ what the log of a session looks like

  ghost predicate AllAre(log: seq<Entry>, cmd: Command, done: bool) {
    forall i :: 0 <= i < |log| ==> log[i].cmd == cmd && log[i].done == done
  }

  /** Realm lists, of which only the last may have failed. */
  ghost predicate RealmLists(log: seq<Entry>) {
    forall i :: 0 <= i < |log| ==> log[i].cmd == RealmList && (i < |log| - 1 ==> log[i].done)
  }

  /** A challenge, wrong or failed proofs, and after the `wrong`-th of them the right one and realm lists. */
  ghost predicate LogonShape(log: seq<Entry>, wrong: nat) {
    && log != [] && log[0].cmd == LogonChallenge && 1 + wrong <= |log|
    && AllAre(log[1..1 + wrong], LogonProof, false)
    && (1 + wrong < |log| ==>
          log[0].done && log[1 + wrong].cmd == LogonProof && log[1 + wrong].done && RealmLists(log[2 + wrong..]))
    && (!log[0].done ==> |log| == 1)
  }

  ghost predicate ReconnectShape(log: seq<Entry>) {
    && log != [] && log[0].cmd == ReconnectChallenge
    && (1 < |log| ==> log[0].done && log[1].cmd == ReconnectProof && (2 < |log| ==> log[1].done) && RealmLists(log[2..]))
  }

  ghost predicate Shape(log: seq<Entry>) {
    log == [] || ReconnectShape(log) || exists wrong: nat :: LogonShape(log, wrong)
  }

  /** The byte each command came with. */
  ghost predicate ByteFits(e: Entry) {
    match e.cmd
    case LogonChallenge => e.opcode == 0
    case LogonProof => e.opcode == 1
    case ReconnectChallenge => e.opcode == 2
    case ReconnectProof => e.opcode == 3
    case RealmList => e.opcode == 0x10
  }

  ghost predicate Numbered(log: seq<Entry>) {
    forall i :: 0 <= i < |log| ==> ByteFits(log[i])
  }

  /** The accepted bytes: the start of 0, some 1s and then 0x10s, or of 2, 3 and then 0x10s. */
  ghost predicate OpcodesInOrder(log: seq<Entry>) {
    || log == []
    || (log[0].opcode == 2 && (|log| > 1 ==> log[1].opcode == 3) && forall i :: 2 <= i < |log| ==> log[i].opcode == 0x10)
    || (log[0].opcode == 0 && exists n :: OnesUpTo(log, n))
  }

  ghost predicate OnesUpTo(log: seq<Entry>, n: nat) {
    && 1 <= n <= |log| && (|log| > 1 ==> n > 1)
    && (forall i :: 1 <= i < n ==> log[i].opcode == 1) && forall i :: n <= i < |log| ==> log[i].opcode == 0x10
  }

  lemma ShapeOrdersOpcodes(log: seq<Entry>)
    requires Shape(log) && Numbered(log)
    ensures OpcodesInOrder(log)
  {
    if log == [] {
    } else if ReconnectShape(log) {
      assert forall i :: 2 <= i < |log| ==> log[i] == log[2..][i - 2];
    } else {
      var wrong: nat :| LogonShape(log, wrong);
      assert forall i :: 1 <= i < 1 + wrong ==> log[i] == log[1..1 + wrong][i - 1];
      if 1 + wrong < |log| {
        assert forall i :: 2 + wrong <= i < |log| ==> log[i] == log[2 + wrong..][i - 2 - wrong];
        assert OnesUpTo(log, 2 + wrong);
      } else {
        assert OnesUpTo(log, |log|);
      }
    }
  }

  /** A right proof for this account is in the log. */
  ghost predicate Proved(valid: (Command, Account, nat) -> bool, log: seq<Entry>, username: string) {
    exists i :: 0 <= i < |log| && (log[i].cmd == LogonProof || log[i].cmd == ReconnectProof) && log[i].done
                && log[i].account.Some? && log[i].account.value.username == username
                && valid(log[i].cmd, log[i].account.value, log[i].proof)
  }

  /** What the status says about the log. */
  ghost predicate Explains(valid: (Command, Account, nat) -> bool, status: Status, account: Option<Account>, log: seq<Entry>) {
    match status
    case AwaitChallenge => log == []
    case AwaitLogonProof =>
      && log != [] && log[0].cmd == LogonChallenge && log[0].done && AllAre(log[1..], LogonProof, false) && account.Some?
    case AwaitReconnectProof => |log| == 1 && log[0].cmd == ReconnectChallenge && log[0].done
    case Authed =>
      && log != [] && account.Some? && Proved(valid, log, account.value.username)
      && (forall i :: 0 <= i < |log| ==> log[i].done || log[i].cmd == LogonProof)
      && ((ReconnectShape(log) && |log| >= 2) || exists wrong: nat :: 1 + wrong < |log| && LogonShape(log, wrong))
    case Closed => |log| == 1 && (log[0].cmd == LogonChallenge || log[0].cmd == ReconnectChallenge) && !log[0].done
  }

  /** The account, once a proof waits for it, is the one of every later entry. */
  ghost predicate SameAccount(log: seq<Entry>, account: Option<Account>) {
    forall i :: 0 <= i < |log| && log[i].account.Some? ==>
      account.Some? && account.value.username == log[i].account.value.username
  }

  /** How a handler leaves the session: waiting for the next command, over, or the whole process down. */
  datatype Outcome = Goes | Ends | Crashes

  /** A reconnect challenge that succeeds for a name without an account. */
  predicate AsksForNobody(r: Request) {
    CommandOf(r.opcode) == Some(ReconnectChallenge) && r.read && r.lookup.NoAccount? && r.written
  }

  predicate CrashesOn(requests: seq<Request>) {
    |requests| >= 2 && AsksForNobody(requests[0]) && CommandOf(requests[1].opcode) == Some(ReconnectProof) && requests[1].read
  }

  /** A session as the loop sees it. */
  datatype State = State(status: Status, account: Option<Account>)

  /** The account a challenge leaves. */
  ghost function LookedUp(account: Option<Account>, r: Request): Option<Account> {
    if !r.read || r.lookup.LookupFails? then account
    else if r.lookup.Found? then Some(r.lookup.account)
    else None
  }

  /** One turn of the loop: what the byte, the status and the request make of the session. */
  ghost predicate Turn(valid: (Command, Account, nat) -> bool, s: State, r: Request, outcome: Outcome, s': State) {
    var answered := r.read && !r.lookup.LookupFails? && r.written;
    if s.status == AwaitChallenge && r.opcode == 0 then
      && outcome == (if answered then Goes else Ends)
      && s' == State(if answered && r.lookup.Found? then AwaitLogonProof else Closed, LookedUp(s.account, r))
    else if s.status == AwaitChallenge && r.opcode == 2 then
      && outcome == (if answered then Goes else Ends)
      && s' == State(if r.read && !r.lookup.LookupFails? then AwaitReconnectProof else Closed, LookedUp(s.account, r))
    else if s.status == AwaitLogonProof && r.opcode == 1 then
      && s.account.Some?
      && var a := s.account.value;
         var right := r.read && valid(LogonProof, a, r.proof);
         && outcome == (if r.read && r.written && (right ==> r.updated) then Goes else Ends)
         && s' == State(if right && r.updated && r.written then Authed else AwaitLogonProof,
                        if right then Some(Account(a.username, r.newKey)) else s.account)
    else if s.status == AwaitReconnectProof && r.opcode == 3 then
      var right := s.account.Some? && valid(ReconnectProof, s.account.value, r.proof);
      && outcome == (if r.read && s.account.None? then Crashes else if r.read && right && r.written then Goes else Ends)
      && s' == State(if outcome == Goes then Authed else AwaitReconnectProof, s.account)
    else if s.status == Authed && r.opcode == 0x10 then
      && outcome == (if r.read && r.realms && r.written then Goes else Ends) && s' == s
    else
      outcome == Ends && s' == s
  }

  /** The loop over `requests`: turn by turn, until one of them does not go on. */
  ghost predicate IsLoop(valid: (Command, Account, nat) -> bool, requests: seq<Request>, states: seq<State>,
                         outcomes: seq<Outcome>)
  {
    && |outcomes| <= |requests| && |states| == |outcomes| + 1
    && (forall i :: 0 <= i < |outcomes| ==> Turn(valid, states[i], requests[i], outcomes[i], states[i + 1]))
    && forall i :: 0 <= i < |outcomes| - 1 ==> outcomes[i] == Goes
  }

  // ------------------------------------------------------------ the session

  class Session {
    const valid: (Command, Account, nat) -> bool
    var status: Status
    var account: Option<Account>
    ghost var log: seq<Entry>

    ghost predicate Valid()
      reads this
    {
      Explains(valid, status, account, log) && SameAccount(log, account)
    }

    constructor (valid: (Command, Account, nat) -> bool)
      ensures this.valid == valid && Valid() && status == AwaitChallenge && log == []
    {
      this.valid, status, account, log := valid, AwaitChallenge, None, [];
    }

    /** `ok` is false when the handler returns an error, which ends the session. */
    method HandleLogonChallenge(r: Request) returns (ok: bool)
      requires Valid() && status == AwaitChallenge
      modifies this
      ensures old(log) == [] && |log| == 1 && log[0].cmd == LogonChallenge && SameAccount(log, account)
      ensures status == AwaitLogonProof || status == Closed
      ensures Valid()
      ensures status == AwaitLogonProof <==> r.read && r.lookup.Found? && r.written
      ensures status == AwaitLogonProof ==> ok && account == Some(r.lookup.account)
      ensures log[0].opcode == r.opcode
      ensures r.opcode == 0 ==>
                Turn(valid, State(old(status), old(account)), r, if ok then Goes else Ends, State(status, account))
    {
      status := Closed;
      log := [Entry(r.opcode, LogonChallenge, false, None, 0)];
      if !r.read {
        return false;
      }
      match r.lookup {
        case LookupFails => return false;
        case NoAccount =>
          account := None;
          return r.written;
        case Found(a) => account := Some(a);
      }
      if !r.written {
        return false;
      }
      status := AwaitLogonProof;
      log := [Entry(r.opcode, LogonChallenge, true, account, 0)];
      return true;
    }

    method HandleReconnectChallenge(r: Request) returns (ok: bool)
      requires Valid() && status == AwaitChallenge
      modifies this
      ensures Valid() && (status == AwaitReconnectProof || status == Closed)
      ensures status == AwaitReconnectProof ==> (account.None? <==> r.lookup.NoAccount?)
      ensures old(log) == [] && |log| == 1 && log[0].cmd == ReconnectChallenge
      ensures status == AwaitReconnectProof <==> r.read && !r.lookup.LookupFails?
      ensures ok <==> status == AwaitReconnectProof && r.written
      ensures log[0].opcode == r.opcode
      ensures r.opcode == 2 ==>
                Turn(valid, State(old(status), old(account)), r, if ok then Goes else Ends, State(status, account))
    {
      status := Closed;
      log := [Entry(r.opcode, ReconnectChallenge, false, None, 0)];
      if !r.read || r.lookup.LookupFails? {
        return false;
      }
      account := if r.lookup.Found? then Some(r.lookup.account) else None;
      status := AwaitReconnectProof;
      log := [Entry(r.opcode, ReconnectChallenge, true, account, 0)];
      return r.written;
    }

    /** A wrong proof leaves the session waiting for another one. */
    method HandleLogonProof(r: Request) returns (ok: bool)
      requires Valid() && status == AwaitLogonProof
      modifies this
      ensures Valid() && |log| == |old(log)| + 1 && log[..|old(log)|] == old(log)
      ensures log[|old(log)|].cmd == LogonProof && log[|old(log)|].done == (status == Authed)
      ensures status == Authed <==> r.read && valid(LogonProof, old(account).value, r.proof) && r.updated && r.written
      ensures status == Authed || status == AwaitLogonProof
      ensures account.Some? && account.value.username == old(account).value.username
      ensures status == Authed ==> ok && account.value.key == r.newKey
      ensures log[|old(log)|].opcode == r.opcode
      ensures r.opcode == 1 ==>
                Turn(valid, State(old(status), old(account)), r, if ok then Goes else Ends, State(status, account))
    {
      var a := account.value;
      log := log + [Entry(r.opcode, LogonProof, false, account, r.proof)];
      if !r.read {
        return false;
      }
      if !valid(LogonProof, a, r.proof) {
        return r.written;
      }
      account := Some(a.(key := r.newKey));
      if !r.updated {
        return false;
      }
      if !r.written {
        return false;
      }
      status := Authed;
      log := old(log) + [Entry(r.opcode, LogonProof, true, Some(a), r.proof)];
      AfterRightProof(valid, old(log), log, account);
      return true;
    }

    /**
     The proof of a reconnect.  The challenge goes on when the name has no account; reading that account
     here is a nil dereference, and nothing recovers from it.
     */
    method HandleReconnectProof(r: Request) returns (outcome: Outcome)
      requires Valid() && status == AwaitReconnectProof
      modifies this
      ensures log == old(log) + [Entry(r.opcode, ReconnectProof, status == Authed, account, r.proof)] && account == old(account)
      ensures status == if outcome == Goes then Authed else AwaitReconnectProof
      ensures r.opcode == 3 ==> Turn(valid, State(old(status), old(account)), r, outcome, State(status, account))
      ensures outcome == Goes <==> r.read && account.Some? && valid(ReconnectProof, account.value, r.proof) && r.written
      ensures outcome == Crashes <==> r.read && account.None?
      ensures outcome == Goes ==> Valid()
      ensures Shape(log) && SameAccount(log, account)
    {
      log := log + [Entry(r.opcode, ReconnectProof, false, account, r.proof)];
      if !r.read {
        return Ends;
      }
      if account.None? {
        return Crashes;
      }
      if !valid(ReconnectProof, account.value, r.proof) {
        return Ends;
      }
      if !r.written {
        return Ends;
      }
      status := Authed;
      log := old(log) + [Entry(r.opcode, ReconnectProof, true, account, r.proof)];
      assert log[1] == Entry(r.opcode, ReconnectProof, true, account, r.proof);
      return Goes;
    }

    method HandleRealmList(r: Request) returns (ok: bool)
      requires Valid() && status == Authed
      modifies `log
      ensures log == old(log) + [Entry(r.opcode, RealmList, ok, None, 0)] && ok == (r.read && r.realms && r.written)
      ensures ok ==> Valid()
      ensures r.opcode == 0x10 ==>
                Turn(valid, State(old(status), old(account)), r, if ok then Goes else Ends, State(status, account))
      ensures Shape(log) && SameAccount(log, account) && account.Some? && Proved(valid, log, account.value.username)
    {
      log := log + [Entry(r.opcode, RealmList, false, None, 0)];
      AfterRealmList(valid, old(log), log, account);
      if !r.read {
        return false;
      }
      if !r.realms {
        return false;
      }
      if !r.written {
        return false;
      }
      log := old(log) + [Entry(r.opcode, RealmList, true, None, 0)];
      AfterRealmList(valid, old(log), log, account);
      return true;
    }

    /**
     The loop: it stops at the first unknown opcode, wrong status or handler error.  It crashes on exactly
     the sequences that start with a reconnect for a name without an account and its proof.
     */
    method ListenAndProcess(requests: seq<Request>)
      returns (crashed: bool, ghost states: seq<State>, ghost outcomes: seq<Outcome>)
      requires Valid() && status == AwaitChallenge
      modifies this
      ensures Shape(log) && SameAccount(log, account)
      ensures status == Authed ==> account.Some? && Proved(valid, log, account.value.username)
      ensures crashed <==> CrashesOn(requests)
      ensures |log| <= |requests| && forall i :: 0 <= i < |log| ==> log[i].opcode == requests[i].opcode
      ensures OpcodesInOrder(log)
      ensures IsLoop(valid, requests, states, outcomes)
      ensures states[0] == State(old(status), old(account)) && states[|outcomes|] == State(status, account)
      ensures |outcomes| < |requests| ==> outcomes != [] && outcomes[|outcomes| - 1] != Goes
      ensures crashed <==> outcomes != [] && outcomes[|outcomes| - 1] == Crashes
    {
      hide Explains, SameAccount, Shape, Proved, Turn;
      states, outcomes := [State(status, account)], [];
      StatusShows(valid, status, account, log);
      NothingLogged(valid, account, log);
      for i := 0 to |requests|
        invariant Valid() && Shape(log) && SameAccount(log, account)
        invariant |log| == i && Numbered(log) && forall j :: 0 <= j < i ==> log[j].opcode == requests[j].opcode
        invariant |outcomes| == i && IsLoop(valid, requests, states, outcomes) && states[i] == State(status, account)
        invariant states[0] == State(old(status), old(account)) && forall j :: 0 <= j < i ==> outcomes[j] == Goes
        invariant status == Authed ==> account.Some? && Proved(valid, log, account.value.username)
        invariant (i == 0 <==> status == AwaitChallenge)
        invariant i == 1 ==> (status == AwaitReconnectProof && account.None? <==> AsksForNobody(requests[0]))
        invariant i >= 2 ==> status != AwaitReconnectProof && !CrashesOn(requests)
      {
        var outcome := Dispatch(requests[i]);
        outcomes := outcomes + [outcome];
        states := states + [State(status, account)];
        if outcome != Goes {
          ShapeOrdersOpcodes(log);
          crashed := outcome == Crashes;
          return;
        }
      }
      ShapeOrdersOpcodes(log);
      crashed := false;
    }

    /** One turn of the loop. */
    method Dispatch(r: Request) returns (outcome: Outcome)
      requires Valid() && Numbered(log)
      modifies this
      ensures outcome == Goes ==> Valid() && status != AwaitChallenge
      ensures Shape(log) && SameAccount(log, account)
      ensures status == Authed ==> account.Some? && Proved(valid, log, account.value.username)
      ensures if CommandOf(r.opcode).Some? && ValidStatus(CommandOf(r.opcode).value) == old(status)
              then |log| == |old(log)| + 1 && log[|old(log)|].cmd == CommandOf(r.opcode).value
              else outcome == Ends && log == old(log) && status == old(status)
      ensures old(account).Some? && old(status) != AwaitChallenge ==>
                account.Some? && account.value.username == old(account).value.username
      ensures outcome == Crashes <==>
                CommandOf(r.opcode) == Some(ReconnectProof) && old(status) == AwaitReconnectProof && old(account).None? && r.read
      ensures outcome == Goes ==> (status == AwaitReconnectProof && account.None? <==> AsksForNobody(r))
      ensures outcome != Goes && old(status) == AwaitChallenge ==> !AsksForNobody(r)
      ensures outcome == Goes && old(status) != AwaitChallenge ==> status != AwaitReconnectProof
      ensures var accepted := || (old(status) == AwaitChallenge && (r.opcode == 0 || r.opcode == 2))
                              || (old(status) == AwaitLogonProof && r.opcode == 1)
                              || (old(status) == AwaitReconnectProof && r.opcode == 3)
                              || (old(status) == Authed && r.opcode == 0x10);
              if accepted then |log| == |old(log)| + 1 && log[..|old(log)|] == old(log) && log[|old(log)|].opcode == r.opcode
              else log == old(log) && outcome == Ends
      ensures Numbered(log)
      ensures Turn(valid, State(old(status), old(account)), r, outcome, State(status, account))
    {
      hide Explains, SameAccount, Shape, Proved, Turn;
      StatusShows(valid, status, account, log);
      var cmd := CommandOf(r.opcode);
      if cmd.None? || status != ValidStatus(cmd.value) {
        TurnedAway(valid, State(status, account), r);
        return Ends;
      }
      var ok := false;
      match cmd.value {
        case LogonChallenge => ok := HandleLogonChallenge(r);
        case LogonProof => ok := HandleLogonProof(r);
        case ReconnectChallenge => ok := HandleReconnectChallenge(r);
        case ReconnectProof =>
          outcome := HandleReconnectProof(r);
          if outcome == Goes {
            StatusShows(valid, status, account, log);
          }
          return;
        case RealmList => ok := HandleRealmList(r);
      }
      if ok || cmd.value != RealmList {
        StatusShows(valid, status, account, log);
      }
      return if ok then Goes else Ends;
    }
  }

  /** A byte that is unknown, or not for the status, ends the loop and changes nothing. */
  lemma TurnedAway(valid: (Command, Account, nat) -> bool, s: State, r: Request)
    requires CommandOf(r.opcode).None? || s.status != ValidStatus(CommandOf(r.opcode).value)
    ensures Turn(valid, s, r, Ends, s)
  {
  }

  lemma NothingLogged(valid: (Command, Account, nat) -> bool, account: Option<Account>, log: seq<Entry>)
    requires Explains(valid, AwaitChallenge, account, log)
    ensures log == []
  {
  }

  /** The status tells enough about the log to know its shape. */
  lemma StatusShows(valid: (Command, Account, nat) -> bool, status: Status, account: Option<Account>, log: seq<Entry>)
    requires Explains(valid, status, account, log)
    ensures Shape(log)
    ensures status == Authed ==> account.Some? && Proved(valid, log, account.value.username)
  {
    if status == AwaitLogonProof {
      assert log[1..1 + (|log| - 1)] == log[1..];
      assert LogonShape(log, |log| - 1);
    } else if status == Closed && log[0].cmd == LogonChallenge {
      assert LogonShape(log, 0);
    }
  }

  lemma AfterRightProof(valid: (Command, Account, nat) -> bool, before: seq<Entry>, log: seq<Entry>, account: Option<Account>)
    requires before != [] && before[0].cmd == LogonChallenge && before[0].done && AllAre(before[1..], LogonProof, false)
    requires |log| == |before| + 1 && log[..|before|] == before && account.Some?
    requires log[|before|].cmd == LogonProof && log[|before|].done && log[|before|].account.Some?
    requires log[|before|].account.value.username == account.value.username
    requires valid(LogonProof, log[|before|].account.value, log[|before|].proof)
    ensures Explains(valid, Authed, account, log)
  {
    var wrong := |before| - 1;
    assert log[1..1 + wrong] == before[1..];
    assert forall i :: 1 <= i < |before| ==> log[i] == before[1..][i - 1];
    assert LogonShape(log, wrong);
  }

  lemma AfterRealmList(valid: (Command, Account, nat) -> bool, before: seq<Entry>, log: seq<Entry>, account: Option<Account>)
    requires Explains(valid, Authed, account, before)
    requires |log| == |before| + 1 && log[..|before|] == before && log[|before|].cmd == RealmList
    ensures Shape(log) && (log[|before|].done ==> Explains(valid, Authed, account, log))
    ensures Proved(valid, log, account.value.username)
  {
    assert forall i :: 0 <= i < |before| ==> log[i] == before[i];
    if ReconnectShape(before) {
      assert forall i :: 2 <= i < |before| ==> log[i] == before[2..][i - 2];
      assert ReconnectShape(log);
    } else {
      var wrong: nat :| 1 + wrong < |before| && LogonShape(before, wrong);
      assert log[1..1 + wrong] == before[1..1 + wrong];
      assert forall i :: 2 + wrong <= i < |before| ==> log[i] == before[2 + wrong..][i - 2 - wrong];
      assert LogonShape(log, wrong);
    }
  }
}
