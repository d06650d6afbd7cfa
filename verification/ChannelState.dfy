/**
 One active chat channel on values: its members in memory, its rows in the database, and what each
 operation of the channel manager makes of both.  Every database write may fail, and a failed write
 changes nothing.  The successor of an owner is the choice of a map iteration, so it is a parameter.
 */
module ChannelState {

  const OWNER: bv8 := 0x01
  const MODERATOR: bv8 := 0x02
  const MUTED: bv8 := 0x08

  /** The length of the "permanent" ban in seconds. */
  const HUNDRED_YEARS: nat := 100 * 365 * 24 * 3600

  predicate Has(flags: bv8, bit: bv8) {
    flags & bit != 0
  }

  function With(flags: bv8, bit: bv8): bv8 {
    flags | bit
  }

  function Without(flags: bv8, bit: bv8): bv8 {
    flags & !bit
  }

  datatype Member = Member(name: string, flags: bv8)

  type Members = map<nat, Member>

  datatype Channel = Channel(
    ownership: bool,
    moderators: seq<nat>,       // from the channel's rights
    password: string,
    owner: nat,                 // 0 is nobody
    members: Members,
    rows: Members,              // the member rows in the database
    bans: map<nat, nat>,        // banned until
    banRows: map<nat, nat>,     // the ban rows in the database
    clock: nat
  )

  // ------------------------------------------------------------ what the operations do

  predicate Banned(c: Channel, p: nat) {
    p in c.bans && c.bans[p] > c.clock
  }

  function Flagged(ms: Members, p: nat, flags: bv8): Members {
    if p in ms then ms[p := ms[p].(flags := flags)] else ms
  }

  /** Moderator by the channel's rights, owner when first. */
  function FirstFlags(c: Channel, p: nat): bv8 {
    var flags: bv8 := if c.members == map[] && c.ownership then OWNER else 0;
    if p in c.moderators then With(flags, MODERATOR) else flags
  }

  predicate Admits(c: Channel, p: nat, password: string) {
    !Banned(c, p) && (c.password == "" || c.password == password) && p !in c.members
  }

  function Joined(c: Channel, p: nat, name: string, password: string, saved: bool): Channel {
    if !Admits(c, p, password) then c
    else
      var m := Member(name, FirstFlags(c, p));
      var named := if c.members == map[] && c.ownership then c.(owner := p) else c;
      if saved then named.(members := c.members[p := m], rows := c.rows[p := m]) else named
  }

  /** The successor gets the flag in memory whether or not the row is updated. */
  function Crowned(c: Channel, heir: nat, saved: bool): Channel {
    if heir !in c.members then c
    else
      var flags := With(c.members[heir].flags, OWNER);
      c.(owner := heir, members := Flagged(c.members, heir, flags),
         rows := if saved then Flagged(c.rows, heir, flags) else c.rows)
  }

  /** What the two loops over the members look for: a moderator if there is one, or else anybody. */
  ghost predicate IsHeir(ms: Members, heir: nat) {
    && heir in ms
    && ((exists q :: q in ms && Has(ms[q].flags, MODERATOR)) ==> Has(ms[heir].flags, MODERATOR))
  }

  predicate LeavesOthers(c: Channel, p: nat) {
    p in c.members && Has(c.members[p].flags, OWNER) && c.ownership && c.members - {p} != map[]
  }

  function Left(c: Channel, p: nat, heir: nat, removed: bool, saved: bool): Channel {
    if p !in c.members || !removed then c
    else
      var gone := c.(members := c.members - {p}, rows := c.rows - {p});
      if LeavesOthers(c, p) then Crowned(gone, heir, saved) else gone
  }

  function FlagSet(c: Channel, p: nat, bit: bv8, on: bool, saved: bool): Channel {
    if p !in c.members || !saved then c
    else
      var flags := if on then With(c.members[p].flags, bit) else Without(c.members[p].flags, bit);
      c.(members := Flagged(c.members, p, flags), rows := Flagged(c.rows, p, flags))
  }

  /** The old owner without the flag, in memory and in the database. */
  function Deposed(c: Channel): Channel {
    if c.owner == 0 || c.owner !in c.members then c
    else
      var flags := Without(c.members[c.owner].flags, OWNER);
      c.(members := Flagged(c.members, c.owner, flags), rows := Flagged(c.rows, c.owner, flags))
  }

  /** `deposed` and `saved` say whether the two writes succeed; a failure is undone in memory only. */
  function OwnerSet(c: Channel, p: nat, deposed: bool, saved: bool): Channel {
    if p !in c.members || (c.owner != 0 && c.owner in c.members && !deposed) then c
    else if saved then Crowned(Deposed(c), p, true)
    else c.(rows := Deposed(c).rows)
  }

  function LoggedOut(c: Channel, p: nat, heir: nat, deposed: bool, saved: bool): Channel {
    if !LeavesOthers(c, p) then c
    else
      var flags := Without(c.members[p].flags, OWNER);
      Crowned(c.(members := Flagged(c.members, p, flags), rows := if deposed then Flagged(c.rows, p, flags) else c.rows),
              heir, saved)
  }

  predicate PrunesOwner(c: Channel, online: set<nat>) {
    c.owner != 0 && c.owner !in online
  }

  /** `failed` are the members whose row could not be deleted. */
  function Pruned(c: Channel, online: set<nat>, heir: nat, failed: set<nat>, saved: bool): Channel {
    var offline := c.members.Keys - online;
    var kept := c.(members := c.members - offline, rows := c.rows - (offline - failed));
    if !PrunesOwner(c, online) then kept
    else if kept.members != map[] && c.ownership then Crowned(kept.(owner := 0), heir, saved)
    else kept.(owner := 0)
  }

  predicate MayModerate(c: Channel, p: nat) {
    p in c.members && (Has(c.members[p].flags, MODERATOR) || Has(c.members[p].flags, OWNER))
  }

  /** A kick, and the ban whether or not the kick succeeded. */
  function BannedByName(c: Channel, banner: nat, target: nat, heir: nat, removed: bool, saved: bool, stored: bool): Channel {
    if !MayModerate(c, banner) || target !in c.members then c
    else
      var until := c.clock + HUNDRED_YEARS;
      Left(c, target, heir, removed, saved).(
        bans := c.bans[target := until], banRows := if stored then c.banRows[target := until] else c.banRows)
  }

  function UnbannedByName(c: Channel, unbanner: nat, target: nat, deleted: bool): Channel {
    if !MayModerate(c, unbanner) || target !in c.members then c
    else c.(bans := c.bans - {target}, banRows := if deleted then c.banRows - {target} else c.banRows)
  }

  // ------------------------------------------------------------ steps and runs

  datatype Op =
    | Join(p: nat, name: string, password: string, saved: bool)
    | Leave(p: nat, heir: nat, removed: bool, saved: bool)                    // also a kick
    | SetFlag(p: nat, bit: bv8, on: bool, saved: bool)
    | SetOwner(p: nat, deposed: bool, saved: bool)
    | Logout(p: nat, heir: nat, deposed: bool, saved: bool)
    | Prune(online: set<nat>, heir: nat, failed: set<nat>, saved: bool)
    | Ban(banner: nat, target: nat, heir: nat, removed: bool, saved: bool, stored: bool)
    | Unban(unbanner: nat, target: nat, deleted: bool)
    | SetPassword(password: string)
    | Wait(seconds: nat)

  ghost predicate Allowed(c: Channel, op: Op) {
    match op
    case Join(p, _, _, _) => p != 0
    case Leave(p, heir, removed, _) => removed && LeavesOthers(c, p) ==> IsHeir(c.members - {p}, heir)
    case SetFlag(_, bit, _, _) => bit == MODERATOR || bit == MUTED
    case Logout(p, heir, _, _) => LeavesOthers(c, p) ==> IsHeir(c.members - {p}, heir)
    case Prune(online, heir, _, _) =>
      PrunesOwner(c, online) && c.ownership && c.members - (c.members.Keys - online) != map[]
      ==> IsHeir(c.members - (c.members.Keys - online), heir)
    case Ban(banner, target, heir, removed, _, _) =>
      MayModerate(c, banner) && removed && LeavesOthers(c, target) ==> IsHeir(c.members - {target}, heir)
    case _ => true
  }

  function After(c: Channel, op: Op): Channel {
    match op
    case Join(p, name, password, saved) => Joined(c, p, name, password, saved)
    case Leave(p, heir, removed, saved) => Left(c, p, heir, removed, saved)
    case SetFlag(p, bit, on, saved) => FlagSet(c, p, bit, on, saved)
    case SetOwner(p, deposed, saved) => OwnerSet(c, p, deposed, saved)
    case Logout(p, heir, deposed, saved) => LoggedOut(c, p, heir, deposed, saved)
    case Prune(online, heir, failed, saved) => Pruned(c, online, heir, failed, saved)
    case Ban(banner, target, heir, removed, saved, stored) => BannedByName(c, banner, target, heir, removed, saved, stored)
    case Unban(unbanner, target, deleted) => UnbannedByName(c, unbanner, target, deleted)
    case SetPassword(password) => c.(password := password)
    case Wait(seconds) => c.(clock := c.clock + seconds)
  }

  function AfterAll(c: Channel, ops: seq<Op>): Channel
    decreases |ops|
  {
    if ops == [] then c else After(AfterAll(c, ops[..|ops| - 1]), ops[|ops| - 1])
  }

  ghost predicate AllAllowed(c: Channel, ops: seq<Op>)
    decreases |ops|
  {
    ops != [] ==> AllAllowed(c, ops[..|ops| - 1]) && Allowed(AfterAll(c, ops[..|ops| - 1]), ops[|ops| - 1])
  }

  // ------------------------------------------------------------ what the operations do, bit by bit

  /** The bit is set or clear as told; the other bits and the name are as before. */
  ghost predicate BitIs(m: Member, m': Member, bit: bv8, on: bool) {
    && m'.name == m.name && (m'.flags & bit != 0 <==> on)
    && m'.flags & (0xFF ^ bit) == m.flags & (0xFF ^ bit)
  }

  /** The same members, and only those in `changed` may differ. */
  ghost predicate OthersKept(ms: Members, ms': Members, changed: set<nat>) {
    && (forall q :: q in ms' <==> q in ms)
    && forall q :: q in ms && q !in changed ==> ms'[q] == ms[q]
  }

  /** The rows of `written`, where there are any, now carry the flags in memory; the others are as before. */
  ghost predicate RowsFollow(rows: Members, rows': Members, ms: Members, written: set<nat>) {
    && OthersKept(rows, rows', written)
    && forall q :: q in written && q in rows && q in ms ==> rows'[q] == Member(rows[q].name, ms[q].flags)
  }

  /** Somebody else is left to own the channel when its owner `p` goes. */
  ghost predicate NeedsHeir(c: Channel, p: nat) {
    p in c.members && c.members[p].flags & 0x01 != 0 && c.ownership && exists q :: q in c.members && q != p
  }

  /** The successor is a member, and a moderator if any member is one. */
  ghost predicate HeirFits(ms: Members, heir: nat) {
    heir in ms && forall q :: q in ms && ms[q].flags & 0x02 != 0 ==> ms[heir].flags & 0x02 != 0
  }

  /** `heir` becomes owner; the row is written only if `saved`. */
  ghost predicate Succeeds(c: Channel, heir: nat, saved: bool, c': Channel) {
    && heir in c.members && c' == c.(owner := heir, members := c'.members, rows := c'.rows)
    && OthersKept(c.members, c'.members, {heir}) && BitIs(c.members[heir], c'.members[heir], 0x01, true)
    && RowsFollow(c.rows, c'.rows, c'.members, if saved then {heir} else {})
  }

  ghost predicate JoinEffect(c: Channel, p: nat, name: string, password: string, saved: bool, c': Channel) {
    if (p in c.bans && c.bans[p] > c.clock) || (c.password != "" && c.password != password) || p in c.members then c' == c
    else
      var first := c.members == map[] && c.ownership;
      var m := Member(name, if p in c.moderators then (if first then 0x03 else 0x02) else (if first then 0x01 else 0));
      && c'.owner == (if first then p else c.owner)
      && c' == if saved then c.(owner := c'.owner, members := c.members[p := m], rows := c.rows[p := m])
               else c.(owner := c'.owner)
  }

  ghost predicate LeaveEffect(c: Channel, p: nat, heir: nat, removed: bool, saved: bool, c': Channel) {
    if p !in c.members || !removed then c' == c
    else
      var gone := c.(members := c.members - {p}, rows := c.rows - {p});
      if NeedsHeir(c, p) then HeirFits(gone.members, heir) && Succeeds(gone, heir, saved, c') else c' == gone
  }

  ghost predicate FlagEffect(c: Channel, p: nat, bit: bv8, on: bool, saved: bool, c': Channel) {
    if p !in c.members || !saved then c' == c
    else
      && c' == c.(members := c'.members, rows := c'.rows)
      && OthersKept(c.members, c'.members, {p}) && BitIs(c.members[p], c'.members[p], bit, on)
      && RowsFollow(c.rows, c'.rows, c'.members, {p})
  }

  /** An owner among the members is deposed first; when only the second write fails, its row stays deposed. */
  ghost predicate OwnerEffect(c: Channel, p: nat, deposed: bool, saved: bool, c': Channel) {
    var before := if c.owner != 0 && c.owner in c.members then {c.owner} else {};
    if p !in c.members || (before != {} && !deposed) then c' == c
    else if saved then
      && c' == c.(owner := p, members := c'.members, rows := c'.rows)
      && OthersKept(c.members, c'.members, {p} + before) && BitIs(c.members[p], c'.members[p], 0x01, true)
      && (forall q :: q in before && q != p ==> BitIs(c.members[q], c'.members[q], 0x01, false))
      && RowsFollow(c.rows, c'.rows, c'.members, {p} + before)
    else
      && c' == c.(rows := c'.rows) && OthersKept(c.rows, c'.rows, before)
      && forall q :: q in before && q in c.rows ==>
           c'.rows[q].name == c.rows[q].name && c'.rows[q].flags == c.members[q].flags & 0xFE
  }

  ghost predicate LogoutEffect(c: Channel, p: nat, heir: nat, deposed: bool, saved: bool, c': Channel) {
    if !NeedsHeir(c, p) then c' == c
    else
      && heir != p && HeirFits(c.members - {p}, heir)
      && c' == c.(owner := heir, members := c'.members, rows := c'.rows)
      && OthersKept(c.members, c'.members, {p, heir})
      && BitIs(c.members[p], c'.members[p], 0x01, false) && BitIs(c.members[heir], c'.members[heir], 0x01, true)
      && RowsFollow(c.rows, c'.rows, c'.members, (if deposed then {p} else {}) + (if saved then {heir} else {}))
  }

  ghost predicate PruneEffect(c: Channel, online: set<nat>, heir: nat, failed: set<nat>, saved: bool, c': Channel) {
    var offline := c.members.Keys - online;
    var kept := c.(members := c.members - offline, rows := c.rows - (offline - failed));
    if c.owner == 0 || c.owner in online then c' == kept
    else if c.ownership && kept.members != map[] then
      HeirFits(kept.members, heir) && Succeeds(kept, heir, saved, c')
    else c' == kept.(owner := 0)
  }

  /** 3153600000 seconds are a hundred years of 365 days. */
  ghost predicate BanEffect(c: Channel, banner: nat, target: nat, heir: nat, removed: bool, saved: bool, stored: bool,
                            c': Channel) {
    if banner !in c.members || c.members[banner].flags & 0x03 == 0 || target !in c.members then c' == c
    else
      && LeaveEffect(c, target, heir, removed, saved, c'.(bans := c.bans, banRows := c.banRows))
      && c'.bans == c.bans[target := c.clock + 3153600000]
      && c'.banRows == if stored then c.banRows[target := c.clock + 3153600000] else c.banRows
  }

  ghost predicate UnbanEffect(c: Channel, unbanner: nat, target: nat, deleted: bool, c': Channel) {
    if unbanner !in c.members || c.members[unbanner].flags & 0x03 == 0 || target !in c.members then c' == c
    else c' == c.(bans := c.bans - {target}, banRows := if deleted then c.banRows - {target} else c.banRows)
  }

  /** What each operation does to the members, the flags, the rows and the bans, told without the functions above. */
  ghost predicate Effect(c: Channel, op: Op, c': Channel) {
    match op
    case Join(p, name, password, saved) => JoinEffect(c, p, name, password, saved, c')
    case Leave(p, heir, removed, saved) => LeaveEffect(c, p, heir, removed, saved, c')
    case SetFlag(p, bit, on, saved) => FlagEffect(c, p, bit, on, saved, c')
    case SetOwner(p, deposed, saved) => OwnerEffect(c, p, deposed, saved, c')
    case Logout(p, heir, deposed, saved) => LogoutEffect(c, p, heir, deposed, saved, c')
    case Prune(online, heir, failed, saved) => PruneEffect(c, online, heir, failed, saved, c')
    case Ban(banner, target, heir, removed, saved, stored) => BanEffect(c, banner, target, heir, removed, saved, stored, c')
    case Unban(unbanner, target, deleted) => UnbanEffect(c, unbanner, target, deleted, c')
    case SetPassword(password) => c' == c.(password := password)
    case Wait(seconds) => c' == c.(clock := c.clock + seconds)
  }

  lemma WithBit(name: string, flags: bv8, bit: bv8)
    requires bit == 0x01 || bit == 0x02 || bit == 0x08
    ensures BitIs(Member(name, flags), Member(name, With(flags, bit)), bit, true)
    ensures BitIs(Member(name, flags), Member(name, Without(flags, bit)), bit, false)
  {
  }

  lemma BitsAgain(name: string, flags: bv8)
    ensures BitIs(Member(name, flags), Member(name, With(Without(flags, 0x01), 0x01)), 0x01, true)
    ensures Without(flags, 0x01) == flags & 0xFE
  {
  }

  lemma HasIs(flags: bv8)
    ensures (Has(flags, OWNER) <==> flags & 0x01 != 0) && (Has(flags, MODERATOR) <==> flags & 0x02 != 0)
    ensures Has(flags, MODERATOR) || Has(flags, OWNER) <==> flags & 0x03 != 0
  {
  }

  lemma HeirIs(ms: Members, heir: nat)
    requires IsHeir(ms, heir)
    ensures HeirFits(ms, heir)
  {
    forall q | q in ms ensures Has(ms[q].flags, MODERATOR) <==> ms[q].flags & 0x02 != 0 {
      HasIs(ms[q].flags);
    }
    hide Has;
  }

  lemma NeedsHeirIs(c: Channel, p: nat)
    ensures LeavesOthers(c, p) <==> NeedsHeir(c, p)
  {
    if p in c.members {
      HasIs(c.members[p].flags);
    }
    hide Has;
    if q :| q in c.members && q != p {
      assert q in c.members - {p};
    } else {
      assert c.members - {p} == map[];
    }
  }

  lemma CrownedSucceeds(c: Channel, heir: nat, saved: bool)
    requires heir in c.members
    ensures Succeeds(c, heir, saved, Crowned(c, heir, saved))
  {
    hide With, BitIs;
    WithBit(c.members[heir].name, c.members[heir].flags, OWNER);
  }

  lemma JoinedIs(c: Channel, p: nat, name: string, password: string, saved: bool)
    ensures JoinEffect(c, p, name, password, saved, Joined(c, p, name, password, saved))
  {
  }

  lemma LeftIs(c: Channel, p: nat, heir: nat, removed: bool, saved: bool)
    requires Allowed(c, Leave(p, heir, removed, saved))
    ensures LeaveEffect(c, p, heir, removed, saved, Left(c, p, heir, removed, saved))
  {
    hide Has, Crowned, Succeeds, HeirFits, IsHeir, LeavesOthers, NeedsHeir;
    NeedsHeirIs(c, p);
    if p in c.members && removed && LeavesOthers(c, p) {
      HeirIs(c.members - {p}, heir);
      HeirIn(c.members - {p}, heir);
      CrownedSucceeds(c.(members := c.members - {p}, rows := c.rows - {p}), heir, saved);
    }
  }

  lemma HeirIn(ms: Members, heir: nat)
    requires IsHeir(ms, heir)
    ensures heir in ms
  {
  }

  lemma FlagSetIs(c: Channel, p: nat, bit: bv8, on: bool, saved: bool)
    requires bit == MODERATOR || bit == MUTED
    ensures FlagEffect(c, p, bit, on, saved, FlagSet(c, p, bit, on, saved))
  {
    hide With, Without, BitIs;
    if p in c.members {
      WithBit(c.members[p].name, c.members[p].flags, bit);
    }
  }

  lemma FlagSetShows(c: Channel, p: nat, bit: bv8, on: bool, saved: bool)
    requires (bit == MODERATOR || bit == MUTED) && p in c.members && saved
    ensures var c' := FlagSet(c, p, bit, on, saved);
            && p in c'.members && (c'.members[p].flags & bit != 0 <==> on)
            && (p in c'.rows ==> (c'.rows[p].flags & bit != 0 <==> on))
  {
    FlagSetIs(c, p, bit, on, saved);
    hide FlagSet;
  }

  lemma BitTwice(m: Member, m1: Member, m2: Member, bit: bv8, first: bool, second: bool)
    requires BitIs(m, m1, bit, first) && BitIs(m1, m2, bit, second)
    ensures BitIs(m, m2, bit, second)
  {
  }

  ghost predicate Deposes(c: Channel, d: Channel) {
    && c.owner in c.members && d == c.(members := d.members, rows := d.rows)
    && OthersKept(c.members, d.members, {c.owner}) && RowsFollow(c.rows, d.rows, d.members, {c.owner})
    && BitIs(c.members[c.owner], d.members[c.owner], 0x01, false)
    && d.members[c.owner].flags == c.members[c.owner].flags & 0xFE
  }

  lemma DeposedIs(c: Channel)
    requires c.owner != 0 && c.owner in c.members
    ensures Deposes(c, Deposed(c))
  {
    hide With, Without, BitIs;
    WithBit(c.members[c.owner].name, c.members[c.owner].flags, OWNER);
    BitsAgain(c.members[c.owner].name, c.members[c.owner].flags);
  }

  /** Deposing one owner and then crowning another, or the same one again. */
  lemma DeposedThenCrowned(c: Channel, d: Channel, p: nat, c': Channel)
    requires c.owner != 0 && Deposes(c, d) && Succeeds(d, p, true, c')
    ensures OwnerEffect(c, p, true, true, c')
  {
    var o := c.owner;
    if p == o {
      BitTwice(c.members[p], d.members[p], c'.members[p], 0x01, false, true);
    }
    hide BitIs;
  }

  lemma OwnerSetIs(c: Channel, p: nat, deposed: bool, saved: bool)
    ensures OwnerEffect(c, p, deposed, saved, OwnerSet(c, p, deposed, saved))
  {
    hide With, Without, BitIs, Crowned, Deposed, Succeeds;
    if p in c.members && c.owner != 0 && c.owner in c.members {
      DeposedIs(c);
      if deposed && saved {
        CrownedSucceeds(Deposed(c), p, true);
        DeposedThenCrowned(c, Deposed(c), p, Crowned(Deposed(c), p, true));
      }
    } else if p in c.members {
      NobodyDeposed(c);
      CrownedSucceeds(c, p, true);
      CrownedAlone(c, p, Crowned(c, p, true));
    }
  }

  lemma OwnerSetShows(c: Channel, p: nat, deposed: bool, saved: bool)
    requires p in c.members && saved && (c.owner !in c.members || c.owner == 0 || deposed)
    ensures var c' := OwnerSet(c, p, deposed, saved);
            c'.owner == p && p in c'.members && c'.members[p].flags & 0x01 != 0
  {
    OwnerSetIs(c, p, deposed, saved);
    hide OwnerSet;
  }

  lemma NobodyDeposed(c: Channel)
    requires c.owner == 0 || c.owner !in c.members
    ensures Deposed(c) == c
  {
  }

  lemma CrownedAlone(c: Channel, p: nat, c': Channel)
    requires (c.owner == 0 || c.owner !in c.members) && Succeeds(c, p, true, c')
    ensures forall deposed :: OwnerEffect(c, p, deposed, true, c')
  {
    hide BitIs;
  }

  lemma LoggedOutIs(c: Channel, p: nat, heir: nat, deposed: bool, saved: bool)
    requires Allowed(c, Logout(p, heir, deposed, saved))
    ensures LogoutEffect(c, p, heir, deposed, saved, LoggedOut(c, p, heir, deposed, saved))
  {
    hide Has, With, Without, BitIs, HeirFits, IsHeir, NeedsHeir;
    NeedsHeirIs(c, p);
    if LeavesOthers(c, p) {
      HeirIs(c.members - {p}, heir);
      HeirIn(c.members - {p}, heir);
      WithBit(c.members[p].name, c.members[p].flags, OWNER);
      WithBit(c.members[heir].name, c.members[heir].flags, OWNER);
    }
  }

  lemma PrunedIs(c: Channel, online: set<nat>, heir: nat, failed: set<nat>, saved: bool)
    requires Allowed(c, Prune(online, heir, failed, saved))
    ensures PruneEffect(c, online, heir, failed, saved, Pruned(c, online, heir, failed, saved))
  {
    hide Crowned, Succeeds, HeirFits, IsHeir;
    var offline := c.members.Keys - online;
    var kept := c.(members := c.members - offline, rows := c.rows - (offline - failed));
    if PrunesOwner(c, online) && c.ownership && kept.members != map[] {
      HeirIs(kept.members, heir);
      HeirIn(kept.members, heir);
      CrownedSucceeds(kept.(owner := 0), heir, saved);
      SucceedsAnyOwner(kept, heir, saved, Crowned(kept.(owner := 0), heir, saved));
    }
  }

  lemma SucceedsAnyOwner(c: Channel, heir: nat, saved: bool, c': Channel)
    requires Succeeds(c.(owner := 0), heir, saved, c')
    ensures Succeeds(c, heir, saved, c')
  {
  }

  lemma BannedByNameIs(c: Channel, banner: nat, target: nat, heir: nat, removed: bool, saved: bool, stored: bool)
    requires Allowed(c, Ban(banner, target, heir, removed, saved, stored))
    ensures BanEffect(c, banner, target, heir, removed, saved, stored,
                      BannedByName(c, banner, target, heir, removed, saved, stored))
  {
    hide Has, Crowned, LeaveEffect, LeavesOthers, IsHeir;
    if banner in c.members {
      HasIs(c.members[banner].flags);
    }
    if MayModerate(c, banner) && target in c.members {
      LeftIs(c, target, heir, removed, saved);
      LeftKeepsBans(c, target, heir, removed, saved);
    }
  }

  lemma NobodyIsBanned(c: Channel, banner: nat, target: nat, heir: nat, removed: bool, saved: bool, stored: bool)
    requires !MayModerate(c, banner) || target !in c.members
    ensures var op := Ban(banner, target, heir, removed, saved, stored);
            Allowed(c, op) && After(c, op) == c && BanEffect(c, banner, target, heir, removed, saved, stored, c)
  {
    hide Has, IsHeir;
    if banner in c.members {
      HasIs(c.members[banner].flags);
    }
  }

  lemma LeftKeepsBans(c: Channel, p: nat, heir: nat, removed: bool, saved: bool)
    ensures var c' := Left(c, p, heir, removed, saved); c'.bans == c.bans && c'.banRows == c.banRows
  {
  }

  lemma UnbannedIs(c: Channel, unbanner: nat, target: nat, deleted: bool)
    ensures UnbanEffect(c, unbanner, target, deleted, UnbannedByName(c, unbanner, target, deleted))
  {
    hide Has;
    if unbanner in c.members {
      HasIs(c.members[unbanner].flags);
    }
  }

  /** Every operation has its effect. */
  lemma StepHasEffect(c: Channel, op: Op)
    requires Allowed(c, op)
    ensures Effect(c, op, After(c, op))
  {
    hide JoinEffect, LeaveEffect, FlagEffect, OwnerEffect, LogoutEffect, PruneEffect, BanEffect, UnbanEffect;
    hide Joined, Left, FlagSet, OwnerSet, LoggedOut, Pruned, BannedByName, UnbannedByName, LeavesOthers, IsHeir;
    match op {
      case Join(p, name, password, saved) => JoinedIs(c, p, name, password, saved);
      case Leave(p, heir, removed, saved) => LeftIs(c, p, heir, removed, saved);
      case SetFlag(p, bit, on, saved) => FlagSetIs(c, p, bit, on, saved);
      case SetOwner(p, deposed, saved) => OwnerSetIs(c, p, deposed, saved);
      case Logout(p, heir, deposed, saved) => LoggedOutIs(c, p, heir, deposed, saved);
      case Prune(online, heir, failed, saved) => PrunedIs(c, online, heir, failed, saved);
      case Ban(banner, target, heir, removed, saved, stored) =>
        BannedByNameIs(c, banner, target, heir, removed, saved, stored);
      case Unban(unbanner, target, deleted) => UnbannedIs(c, unbanner, target, deleted);
      case _ =>
    }
  }

  // ------------------------------------------------------------ flags

  lemma OwnerBit(flags: bv8)
    ensures Has(With(flags, OWNER), OWNER) && !Has(Without(flags, OWNER), OWNER)
    ensures Has(With(flags, OWNER), MODERATOR) == Has(flags, MODERATOR)
    ensures Has(Without(flags, OWNER), MODERATOR) == Has(flags, MODERATOR)
    ensures With(With(flags, OWNER), OWNER) == With(flags, OWNER) == With(Without(flags, OWNER), OWNER)
    ensures !Has(flags, OWNER) ==> Without(With(flags, OWNER), OWNER) == flags
    ensures With(flags, OWNER) == flags <==> Has(flags, OWNER)
  {
  }

  lemma OtherBits(flags: bv8, bit: bv8)
    requires bit == MODERATOR || bit == MUTED
    ensures Has(With(flags, bit), OWNER) == Has(flags, OWNER) && Has(Without(flags, bit), OWNER) == Has(flags, OWNER)
    ensures With(With(flags, bit), OWNER) == With(With(flags, OWNER), bit)
    ensures With(Without(flags, bit), OWNER) == Without(With(flags, OWNER), bit)
  {
  }

  lemma FirstBits(c: Channel, p: nat)
    ensures Has(FirstFlags(c, p), OWNER) <==> c.members == map[] && c.ownership
  {
    OtherBits(OWNER, MODERATOR);
    OtherBits(0, MODERATOR);
  }

  // ------------------------------------------------------------ one owner

  /** In a channel with owners and members exactly one member carries the flag, and it is `owner`. */
  ghost predicate OneOwner(c: Channel) {
    && 0 !in c.members
    && (c.ownership && c.members != map[] ==>
          c.owner in c.members && forall p :: p in c.members ==> (Has(c.members[p].flags, OWNER) <==> p == c.owner))
  }

  /** Where nobody carries the flag, the crowned member is the one owner. */
  lemma CrownedIsOneOwner(c: Channel, heir: nat, saved: bool)
    requires 0 !in c.members && heir in c.members
    requires forall p :: p in c.members ==> !Has(c.members[p].flags, OWNER)
    ensures OneOwner(Crowned(c, heir, saved))
  {
    hide Has, With;
    OwnerBit(c.members[heir].flags);
  }

  lemma CrownedKeepsMembers(c: Channel, heir: nat, saved: bool)
    ensures Crowned(c, heir, saved).ownership == c.ownership
    ensures forall p :: p in Crowned(c, heir, saved).members <==> p in c.members
  {
  }

  lemma LeftKeepsOneOwner(c: Channel, p: nat, heir: nat, removed: bool, saved: bool)
    requires OneOwner(c) && (removed && LeavesOthers(c, p) ==> IsHeir(c.members - {p}, heir))
    ensures OneOwner(Left(c, p, heir, removed, saved))
  {
    hide Has, With, Crowned;
    if removed && LeavesOthers(c, p) {
      CrownedIsOneOwner(c.(members := c.members - {p}, rows := c.rows - {p}), heir, saved);
    }
  }

  lemma OwnerSetKeepsOneOwner(c: Channel, p: nat, deposed: bool, saved: bool)
    requires OneOwner(c)
    ensures OneOwner(OwnerSet(c, p, deposed, saved))
  {
    hide Has, With, Without, Crowned;
    if p in c.members && c.ownership {
      OwnerBit(c.members[c.owner].flags);
      CrownedIsOneOwner(Deposed(c), p, true);
    } else {
      CrownedKeepsMembers(Deposed(c), p, true);
    }
  }

  lemma LoggedOutKeepsOneOwner(c: Channel, p: nat, heir: nat, deposed: bool, saved: bool)
    requires OneOwner(c) && (LeavesOthers(c, p) ==> IsHeir(c.members - {p}, heir))
    ensures OneOwner(LoggedOut(c, p, heir, deposed, saved))
  {
    hide Has, With, Without, Crowned;
    if LeavesOthers(c, p) {
      var flags := Without(c.members[p].flags, OWNER);
      OwnerBit(c.members[p].flags);
      CrownedIsOneOwner(c.(members := Flagged(c.members, p, flags),
                           rows := if deposed then Flagged(c.rows, p, flags) else c.rows), heir, saved);
    }
  }

  lemma PrunedKeepsOneOwner(c: Channel, online: set<nat>, heir: nat, failed: set<nat>, saved: bool)
    requires OneOwner(c) && Allowed(c, Prune(online, heir, failed, saved))
    ensures OneOwner(Pruned(c, online, heir, failed, saved))
  {
    hide Has, With, Without, Crowned;
    var offline := c.members.Keys - online;
    var kept := c.(members := c.members - offline, rows := c.rows - (offline - failed));
    if kept.members != map[] && c.ownership {
      assert c.members != map[];
      if PrunesOwner(c, online) {
        CrownedIsOneOwner(kept.(owner := 0), heir, saved);
      }
    }
  }

  /** Whatever writes fail, every operation keeps exactly one owner. */
  lemma StepKeepsOneOwner(c: Channel, op: Op)
    requires OneOwner(c) && Allowed(c, op)
    ensures OneOwner(After(c, op))
  {
    hide Has, With, Without, Left, OwnerSet, LoggedOut, Pruned, FirstFlags;
    match op {
      case Join(p, _, _, _) => FirstBits(c, p);
      case Leave(p, heir, removed, saved) => LeftKeepsOneOwner(c, p, heir, removed, saved);
      case SetFlag(p, bit, _, _) => if p in c.members { OtherBits(c.members[p].flags, bit); }
      case SetOwner(p, deposed, saved) => OwnerSetKeepsOneOwner(c, p, deposed, saved);
      case Logout(p, heir, deposed, saved) => LoggedOutKeepsOneOwner(c, p, heir, deposed, saved);
      case Prune(online, heir, failed, saved) => PrunedKeepsOneOwner(c, online, heir, failed, saved);
      case Ban(banner, target, heir, removed, saved, _) =>
        if MayModerate(c, banner) { LeftKeepsOneOwner(c, target, heir, removed, saved); }
      case _ =>
    }
  }

  /** So in every run from an empty channel, under any failures, there is one owner while there are members. */
  lemma {:induction false} EveryRunHasOneOwner(c: Channel, ops: seq<Op>)
    requires c.members == map[] && AllAllowed(c, ops)
    ensures OneOwner(AfterAll(c, ops))
    decreases |ops|
  {
    hide After, Allowed;
    if ops != [] {
      EveryRunHasOneOwner(c, ops[..|ops| - 1]);
      StepKeepsOneOwner(AfterAll(c, ops[..|ops| - 1]), ops[|ops| - 1]);
    }
  }

  /**
   When a leave, kick, ban, logout or prune makes somebody else owner, that is a moderator whenever a
   remaining member is one.
   */
  lemma SuccessorIsModerator(c: Channel, op: Op, q: nat)
    requires OneOwner(c) && c.ownership && Allowed(c, op) && !op.SetOwner? && c.members != map[]
    requires After(c, op).owner != c.owner && q in c.members && q in After(c, op).members && q != c.owner
    requires Has(c.members[q].flags, MODERATOR)
    ensures After(c, op).owner in c.members && Has(c.members[After(c, op).owner].flags, MODERATOR)
  {
    hide Has, With, Without, Crowned, IsHeir, Flagged;
    match op {
      case Join(_, _, _, _) => hide FirstFlags;
      case Leave(p, heir, removed, saved) => LeftSuccessor(c, p, heir, removed, saved, q);
      case Logout(p, heir, deposed, saved) => LoggedOutSuccessor(c, p, heir, deposed, saved, q);
      case Prune(online, heir, failed, saved) => PrunedSuccessor(c, online, heir, failed, saved, q);
      case Ban(_, target, heir, removed, saved, _) => LeftSuccessor(c, target, heir, removed, saved, q);
      case _ =>
    }
  }

  lemma LeftSuccessor(c: Channel, p: nat, heir: nat, removed: bool, saved: bool, q: nat)
    requires OneOwner(c) && c.ownership && (removed && LeavesOthers(c, p) ==> IsHeir(c.members - {p}, heir))
    requires q in c.members && q != c.owner && Has(c.members[q].flags, MODERATOR)
    ensures var c' := Left(c, p, heir, removed, saved);
            c'.owner != c.owner ==> c'.owner in c.members && Has(c.members[c'.owner].flags, MODERATOR)
  {
    hide Has, With;
    if q in c.members - {p} { HeirIsModerator(c.members - {p}, heir, q); }
  }

  lemma LoggedOutSuccessor(c: Channel, p: nat, heir: nat, deposed: bool, saved: bool, q: nat)
    requires OneOwner(c) && c.ownership && (LeavesOthers(c, p) ==> IsHeir(c.members - {p}, heir))
    requires q in c.members && q != c.owner && Has(c.members[q].flags, MODERATOR)
    ensures var c' := LoggedOut(c, p, heir, deposed, saved);
            c'.owner != c.owner ==> c'.owner in c.members && Has(c.members[c'.owner].flags, MODERATOR)
  {
    hide Has, With, Without;
    if q in c.members - {p} { HeirIsModerator(c.members - {p}, heir, q); }
  }

  lemma PrunedSuccessor(c: Channel, online: set<nat>, heir: nat, failed: set<nat>, saved: bool, q: nat)
    requires OneOwner(c) && c.ownership && Allowed(c, Prune(online, heir, failed, saved))
    requires q in c.members && Has(c.members[q].flags, MODERATOR)
    requires q in Pruned(c, online, heir, failed, saved).members
    ensures var c' := Pruned(c, online, heir, failed, saved);
            c'.owner != c.owner ==> c'.owner in c.members && Has(c.members[c'.owner].flags, MODERATOR)
  {
    hide Has, With;
    var kept := c.members - (c.members.Keys - online);
    if q in kept { HeirIsModerator(kept, heir, q); }
  }

  lemma HeirIsModerator(ms: Members, heir: nat, q: nat)
    requires q in ms && Has(ms[q].flags, MODERATOR)
    ensures IsHeir(ms, heir) ==> Has(ms[heir].flags, MODERATOR)
  {
  }

  // ------------------------------------------------------------ memory and database

  /** The same name and flags, except possibly the owner bit. */
  predicate SameButOwner(m: Member, row: Member) {
    m.name == row.name && With(m.flags, OWNER) == With(row.flags, OWNER)
  }

  /** Every member has a row that agrees except possibly in the owner bit. */
  ghost predicate Backed(c: Channel) {
    forall p :: p in c.members ==> p in c.rows && SameButOwner(c.members[p], c.rows[p])
  }

  /** Every row belongs to a member. */
  ghost predicate NoStrayRows(c: Channel) {
    forall p :: p in c.rows ==> p in c.members
  }

  lemma CrownedKeepsBacked(c: Channel, heir: nat, saved: bool)
    requires Backed(c)
    ensures Backed(Crowned(c, heir, saved))
    ensures NoStrayRows(c) ==> NoStrayRows(Crowned(c, heir, saved))
  {
    hide Has, With;
    if heir in c.members {
      OwnerBit(c.members[heir].flags);
    }
  }

  lemma DeposedKeepsBacked(c: Channel, memory: bool, database: bool, p: nat)
    requires Backed(c) && p in c.members
    ensures var flags := Without(c.members[p].flags, OWNER);
            var c' := c.(members := if memory then Flagged(c.members, p, flags) else c.members,
                         rows := if database then Flagged(c.rows, p, flags) else c.rows);
            Backed(c') && (NoStrayRows(c) ==> NoStrayRows(c'))
  {
    hide Has, With, Without;
    OwnerBit(c.members[p].flags);
  }

  lemma FlagSetKeepsBacked(c: Channel, p: nat, bit: bv8, on: bool, saved: bool)
    requires Backed(c) && (bit == MODERATOR || bit == MUTED)
    ensures Backed(FlagSet(c, p, bit, on, saved))
    ensures NoStrayRows(c) ==> NoStrayRows(FlagSet(c, p, bit, on, saved))
  {
    hide Has, With, Without;
  }

  /** Whatever writes fail, members stay a subset of the rows; strays appear only in a prune that fails to delete. */
  lemma StepKeepsBacked(c: Channel, op: Op)
    requires Backed(c) && Allowed(c, op)
    ensures Backed(After(c, op))
    ensures NoStrayRows(c) && !op.Prune? ==> NoStrayRows(After(c, op))
  {
    hide Has, With, Without, Joined, Left, FlagSet, OwnerSet, LoggedOut, Pruned, Allowed, SameButOwner;
    match op {
      case Join(p, name, password, saved) => JoinedKeepsBacked(c, p, name, password, saved);
      case Leave(p, heir, removed, saved) => LeftKeepsBacked(c, p, heir, removed, saved);
      case SetFlag(p, bit, on, saved) => SettableBit(c, op); FlagSetKeepsBacked(c, p, bit, on, saved);
      case SetOwner(p, deposed, saved) => OwnerSetKeepsBacked(c, p, deposed, saved);
      case Logout(p, heir, deposed, saved) => LoggedOutKeepsBacked(c, p, heir, deposed, saved);
      case Prune(online, heir, failed, saved) => PrunedKeepsBacked(c, online, heir, failed, saved);
      case Ban(banner, target, heir, removed, saved, _) => LeftKeepsBacked(c, target, heir, removed, saved);
      case _ =>
    }
  }

  lemma SettableBit(c: Channel, op: Op)
    requires Allowed(c, op) && op.SetFlag?
    ensures op.bit == MODERATOR || op.bit == MUTED
  {
  }

  lemma JoinedKeepsBacked(c: Channel, p: nat, name: string, password: string, saved: bool)
    requires Backed(c)
    ensures Backed(Joined(c, p, name, password, saved))
    ensures NoStrayRows(c) ==> NoStrayRows(Joined(c, p, name, password, saved))
  {
    hide Has, With, FirstFlags;
  }

  lemma LeftKeepsBacked(c: Channel, p: nat, heir: nat, removed: bool, saved: bool)
    requires Backed(c)
    ensures Backed(Left(c, p, heir, removed, saved))
    ensures NoStrayRows(c) ==> NoStrayRows(Left(c, p, heir, removed, saved))
  {
    hide Has, With, Crowned, SameButOwner;
    CrownedKeepsBacked(c.(members := c.members - {p}, rows := c.rows - {p}), heir, saved);
  }

  lemma OwnerSetKeepsBacked(c: Channel, p: nat, deposed: bool, saved: bool)
    requires Backed(c)
    ensures Backed(OwnerSet(c, p, deposed, saved))
    ensures NoStrayRows(c) ==> NoStrayRows(OwnerSet(c, p, deposed, saved))
  {
    hide Has, With, Without, Crowned, SameButOwner;
    if c.owner != 0 && c.owner in c.members {
      DeposedKeepsBacked(c, true, true, c.owner);
      DeposedKeepsBacked(c, false, true, c.owner);
    }
    CrownedKeepsBacked(Deposed(c), p, true);
  }

  lemma LoggedOutKeepsBacked(c: Channel, p: nat, heir: nat, deposed: bool, saved: bool)
    requires Backed(c)
    ensures Backed(LoggedOut(c, p, heir, deposed, saved))
    ensures NoStrayRows(c) ==> NoStrayRows(LoggedOut(c, p, heir, deposed, saved))
  {
    hide Has, With, Without, Crowned, SameButOwner, Flagged;
    if LeavesOthers(c, p) {
      DeposedKeepsBacked(c, true, deposed, p);
      var flags := Without(c.members[p].flags, OWNER);
      CrownedKeepsBacked(c.(members := Flagged(c.members, p, flags),
                            rows := if deposed then Flagged(c.rows, p, flags) else c.rows), heir, saved);
    }
  }

  lemma PrunedKeepsBacked(c: Channel, online: set<nat>, heir: nat, failed: set<nat>, saved: bool)
    requires Backed(c)
    ensures Backed(Pruned(c, online, heir, failed, saved))
  {
    hide Has, With, Crowned, SameButOwner;
    var offline := c.members.Keys - online;
    CrownedKeepsBacked(c.(members := c.members - offline, rows := c.rows - (offline - failed), owner := 0), heir, saved);
  }

  /** So in every run from an empty channel the database covers the members, and exactly them without prunes. */
  lemma {:induction false} EveryRunIsBacked(c: Channel, ops: seq<Op>)
    requires c.members == map[] && c.rows == map[] && AllAllowed(c, ops)
    ensures Backed(AfterAll(c, ops))
    ensures (forall i :: 0 <= i < |ops| ==> !ops[i].Prune?) ==> NoStrayRows(AfterAll(c, ops))
    decreases |ops|
  {
    hide After, Allowed, SameButOwner;
    if ops != [] {
      EveryRunIsBacked(c, ops[..|ops| - 1]);
      StepKeepsBacked(AfterAll(c, ops[..|ops| - 1]), ops[|ops| - 1]);
    }
  }

  /** The writes whose failure is only logged, or undone in memory alone, all succeed. */
  ghost predicate Harmless(c: Channel, op: Op) {
    match op
    case Leave(p, _, removed, saved) => removed && LeavesOthers(c, p) ==> saved
    case SetOwner(p, deposed, saved) =>
      p in c.members && c.owner != 0 && c.owner in c.members && Has(c.members[c.owner].flags, OWNER) && deposed ==> saved
    case Logout(p, _, deposed, saved) => LeavesOthers(c, p) ==> deposed && saved
    case Prune(online, _, failed, saved) =>
      var offline := c.members.Keys - online;
      offline !! failed && (PrunesOwner(c, online) && c.ownership && c.members - offline != map[] ==> saved)
    case Ban(banner, target, _, removed, saved, _) =>
      MayModerate(c, banner) && removed && LeavesOthers(c, target) ==> saved
    case _ => true
  }

  lemma CrownedExactly(c: Channel, heir: nat, saved: bool)
    requires c.rows == c.members && heir in c.members && (saved || !Has(c.members[heir].flags, OWNER))
    ensures Crowned(c, heir, saved).rows == Crowned(c, heir, saved).members <==> saved
  {
    OwnerBit(c.members[heir].flags);
  }

  lemma LeftExactly(c: Channel, p: nat, heir: nat, removed: bool, saved: bool)
    requires OneOwner(c) && c.rows == c.members && (removed && LeavesOthers(c, p) ==> IsHeir(c.members - {p}, heir))
    ensures Left(c, p, heir, removed, saved).rows == Left(c, p, heir, removed, saved).members
            <==> (removed && LeavesOthers(c, p) ==> saved)
  {
    hide Has, With, Crowned;
    if removed && LeavesOthers(c, p) {
      var gone := c.(members := c.members - {p}, rows := c.rows - {p});
      assert gone.rows == gone.members;
      CrownedExactly(gone, heir, saved);
    }
  }

  lemma OwnerSetExactly(c: Channel, p: nat, deposed: bool, saved: bool)
    requires c.rows == c.members
    ensures OwnerSet(c, p, deposed, saved).rows == OwnerSet(c, p, deposed, saved).members
            <==> Harmless(c, SetOwner(p, deposed, saved))
  {
    hide Has, With, Without, Crowned;
    if p in c.members {
      CrownedExactly(Deposed(c), p, true);
      if c.owner in c.members {
        OwnerBit(c.members[c.owner].flags);
        WithoutUnsetBit(c.members[c.owner].flags, OWNER);
        assert c.owner != 0 ==> Deposed(c).rows[c.owner].flags == Without(c.members[c.owner].flags, OWNER);
      }
    }
  }

  lemma WithoutUnsetBit(flags: bv8, bit: bv8)
    ensures !Has(flags, bit) ==> Without(flags, bit) == flags
  {
  }

  lemma LoggedOutExactly(c: Channel, p: nat, heir: nat, deposed: bool, saved: bool)
    requires OneOwner(c) && c.rows == c.members && LeavesOthers(c, p) && IsHeir(c.members - {p}, heir)
    ensures LoggedOut(c, p, heir, deposed, saved).rows == LoggedOut(c, p, heir, deposed, saved).members
            <==> deposed && saved
  {
    hide Has, With, Without;
    var c' := LoggedOut(c, p, heir, deposed, saved);
    OwnerBit(c.members[p].flags);
    OwnerBit(c.members[heir].flags);
    assert heir != p && c'.members[p].flags == Without(c.members[p].flags, OWNER);
    assert c'.members[heir].flags == With(c.members[heir].flags, OWNER);
  }

  lemma PrunedExactly(c: Channel, online: set<nat>, heir: nat, failed: set<nat>, saved: bool)
    requires OneOwner(c) && c.rows == c.members && Allowed(c, Prune(online, heir, failed, saved))
    ensures Pruned(c, online, heir, failed, saved).rows == Pruned(c, online, heir, failed, saved).members
            <==> Harmless(c, Prune(online, heir, failed, saved))
  {
    hide Has, With, Crowned;
    var offline := c.members.Keys - online;
    var kept := c.(members := c.members - offline, rows := c.rows - (offline - failed));
    CrownedKeepsMembers(kept.(owner := 0), heir, saved);
    CrownedKeepsRows(kept.(owner := 0), heir, saved);
    if p :| p in offline && p in failed {
      assert p in kept.rows && p !in kept.members;
      assert p in Pruned(c, online, heir, failed, saved).rows;
    } else {
      assert kept.rows == kept.members;
      if PrunesOwner(c, online) && kept.members != map[] && c.ownership {
        CrownedExactly(kept.(owner := 0), heir, saved);
      }
    }
  }

  lemma CrownedKeepsRows(c: Channel, heir: nat, saved: bool)
    ensures forall p :: p in Crowned(c, heir, saved).rows <==> p in c.rows
  {
  }

  /** While the rows are an exact copy of the members, an operation keeps them so exactly if it is harmless. */
  lemma StepKeepsRowsExactly(c: Channel, op: Op)
    requires OneOwner(c) && c.rows == c.members && Allowed(c, op)
    ensures After(c, op).rows == After(c, op).members <==> Harmless(c, op)
  {
    hide Has, With, Without, FirstFlags, Left, OwnerSet, LoggedOut, Pruned;
    match op {
      case Leave(p, heir, removed, saved) => LeftExactly(c, p, heir, removed, saved);
      case SetOwner(p, deposed, saved) => OwnerSetExactly(c, p, deposed, saved);
      case Logout(p, heir, deposed, saved) =>
        if LeavesOthers(c, p) {
          LoggedOutExactly(c, p, heir, deposed, saved);
        } else {
          NobodyLogsOut(c, p, heir, deposed, saved);
        }
      case Prune(online, heir, failed, saved) => PrunedExactly(c, online, heir, failed, saved);
      case Ban(banner, target, heir, removed, saved, _) =>
        if MayModerate(c, banner) { LeftExactly(c, target, heir, removed, saved); }
      case _ =>
    }
  }

  lemma NobodyLogsOut(c: Channel, p: nat, heir: nat, deposed: bool, saved: bool)
    requires !LeavesOthers(c, p)
    ensures LoggedOut(c, p, heir, deposed, saved) == c
  {
  }

  /** Every write of this operation succeeds. */
  predicate Faultless(op: Op) {
    match op
    case Join(_, _, _, saved) => saved
    case Leave(_, _, removed, saved) => removed && saved
    case SetFlag(_, _, _, saved) => saved
    case SetOwner(_, deposed, saved) => deposed && saved
    case Logout(_, _, deposed, saved) => deposed && saved
    case Prune(_, _, failed, saved) => failed == {} && saved
    case Ban(_, _, _, removed, saved, stored) => removed && saved && stored
    case Unban(_, _, deleted) => deleted
    case _ => true
  }

  /** The database is an exact copy: members, flags and bans. */
  predicate ExactCopy(c: Channel) {
    c.rows == c.members && c.banRows == c.bans
  }

  lemma {:induction false} FaultlessRunsAreCopied(c: Channel, ops: seq<Op>)
    requires c.members == map[] && ExactCopy(c) && AllAllowed(c, ops)
    requires forall i :: 0 <= i < |ops| ==> Faultless(ops[i])
    ensures ExactCopy(AfterAll(c, ops))
    decreases |ops|
  {
    hide After, Allowed, Harmless;
    if ops != [] {
      var before, op := AfterAll(c, ops[..|ops| - 1]), ops[|ops| - 1];
      FaultlessRunsAreCopied(c, ops[..|ops| - 1]);
      EveryRunHasOneOwner(c, ops[..|ops| - 1]);
      StepKeepsRowsExactly(before, op);
      FaultlessIsHarmless(before, op);
      FaultlessKeepsBanRows(before, op);
    }
  }

  lemma FaultlessIsHarmless(c: Channel, op: Op)
    requires Faultless(op)
    ensures Harmless(c, op)
  {
  }

  lemma FaultlessKeepsBanRows(c: Channel, op: Op)
    requires Faultless(op) && c.banRows == c.bans
    ensures After(c, op).banRows == After(c, op).bans
  {
    hide Has, With, Without;
  }

  // ------------------------------------------------------------ bans

  ghost predicate NoBannedMember(c: Channel) {
    forall p :: p in c.members ==> !Banned(c, p)
  }

  /** Outside `BanPlayerByName` no operation makes a banned player a member. */
  lemma StepKeepsOutBanned(c: Channel, op: Op)
    requires NoBannedMember(c) && Allowed(c, op) && !op.Ban?
    ensures NoBannedMember(After(c, op))
  {
    hide Has, With, Without, FirstFlags;
  }

  /** A ban keeps the member list free of banned players exactly if its kick reaches the database. */
  lemma BanKeepsOutExactly(c: Channel, banner: nat, target: nat, heir: nat, removed: bool, saved: bool, stored: bool)
    requires NoBannedMember(c) && Allowed(c, Ban(banner, target, heir, removed, saved, stored))
    requires MayModerate(c, banner) && target in c.members
    ensures NoBannedMember(After(c, Ban(banner, target, heir, removed, saved, stored))) <==> removed
  {
    hide Has, With;
    var c' := After(c, Ban(banner, target, heir, removed, saved, stored));
    assert Banned(c', target);
    assert forall p :: p != target ==> Banned(c', p) == Banned(c, p);
  }

  ghost predicate KicksSucceed(ops: seq<Op>) {
    forall i :: 0 <= i < |ops| && ops[i].Ban? ==> ops[i].removed
  }

  lemma {:induction false} NoMemberIsBanned(c: Channel, ops: seq<Op>)
    requires c.members == map[] && AllAllowed(c, ops) && KicksSucceed(ops)
    ensures NoBannedMember(AfterAll(c, ops))
    decreases |ops|
  {
    hide After, Allowed, Banned;
    if ops != [] {
      var before, op := AfterAll(c, ops[..|ops| - 1]), ops[|ops| - 1];
      NoMemberIsBanned(c, ops[..|ops| - 1]);
      if op.Ban? {
        BanKeepsOut(before, op);
      } else {
        StepKeepsOutBanned(before, op);
      }
    }
  }

  lemma BanKeepsOut(c: Channel, op: Op)
    requires NoBannedMember(c) && Allowed(c, op) && op.Ban? && op.removed
    ensures NoBannedMember(After(c, op))
  {
    if MayModerate(c, op.banner) && op.target in c.members {
      BanKeepsOutExactly(c, op.banner, op.target, op.heir, op.removed, op.saved, op.stored);
    }
  }

  /** Hence unbanning by name, which finds members only, never lifts a live ban. */
  lemma UnbanLiftsNothing(c: Channel, ops: seq<Op>, unbanner: nat, target: nat, deleted: bool, q: nat)
    requires c.members == map[] && AllAllowed(c, ops) && KicksSucceed(ops)
    ensures Banned(UnbannedByName(AfterAll(c, ops), unbanner, target, deleted), q) == Banned(AfterAll(c, ops), q)
  {
    NoMemberIsBanned(c, ops);
  }

  // ------------------------------------------------------------ loading a channel again

  /** The owner a load finds: the last row, in the order they are read, that carries the flag. */
  function LastOwner(rows: Members, order: seq<nat>): nat {
    if order == [] then 0
    else
      var p := order[|order| - 1];
      if p in rows && Has(rows[p].flags, OWNER) then p else LastOwner(rows, order[..|order| - 1])
  }

  ghost predicate LastFlagged(rows: Members, order: seq<nat>, i: nat) {
    && i < |order| && order[i] in rows && rows[order[i]].flags & 0x01 != 0
    && forall j :: i < j < |order| && order[j] in rows ==> rows[order[j]].flags & 0x01 == 0
  }

  /** The last row that carries the flag names the owner; without one nobody is. */
  ghost predicate LastIsOwner(rows: Members, order: seq<nat>, owner: nat) {
    || (owner == 0 && forall j :: 0 <= j < |order| && order[j] in rows ==> rows[order[j]].flags & 0x01 == 0)
    || exists i: nat :: LastFlagged(rows, order, i) && order[i] == owner
  }

  lemma {:induction false} LastOwnerIsLast(rows: Members, order: seq<nat>)
    ensures LastIsOwner(rows, order, LastOwner(rows, order))
    decreases |order|
  {
    if order != [] {
      var n := |order| - 1;
      LastOwnerIsLast(rows, order[..n]);
      if order[n] in rows {
        HasIs(rows[order[n]].flags);
      }
      LastIsOwnerGrows(rows, order, LastOwner(rows, order[..n]));
    }
  }

  /** One more row: it is the last flagged one if it is flagged. */
  lemma LastIsOwnerGrows(rows: Members, order: seq<nat>, owner: nat)
    requires order != [] && LastIsOwner(rows, order[..|order| - 1], owner)
    ensures var p := order[|order| - 1];
            LastIsOwner(rows, order, if p in rows && rows[p].flags & 0x01 != 0 then p else owner)
  {
    var n := |order| - 1;
    assert forall j :: 0 <= j < n ==> order[..n][j] == order[j];
    if order[n] in rows && rows[order[n]].flags & 0x01 != 0 {
      assert LastFlagged(rows, order, n);
    } else if i: nat :| LastFlagged(rows, order[..n], i) && order[..n][i] == owner {
      assert LastFlagged(rows, order, i);
    }
  }

  function Reloaded(c: Channel, order: seq<nat>): Channel {
    c.(members := c.rows, owner := LastOwner(c.rows, order),
       bans := map p | p in c.banRows && c.banRows[p] > c.clock :: c.banRows[p])
  }

  /** The rows in some order, each once. */
  ghost predicate Lists(order: seq<nat>, rows: Members) {
    forall p :: p in order <==> p in rows
  }

  lemma {:induction false} LastOwnerIs(rows: Members, order: seq<nat>, owner: nat)
    requires owner in order && owner in rows && Has(rows[owner].flags, OWNER)
    requires forall p :: p in rows && p != owner ==> !Has(rows[p].flags, OWNER)
    ensures LastOwner(rows, order) == owner
    decreases |order|
  {
    hide Has;
    var n := |order| - 1;
    if order[n] != owner {
      assert order == order[..n] + [order[n]];
      LastOwnerIs(rows, order[..n], owner);
    }
  }

  /** Loading an exact copy gives back the members, the owner and every live ban. */
  lemma ReloadRestores(c: Channel, order: seq<nat>)
    requires OneOwner(c) && c.ownership && c.members != map[] && ExactCopy(c) && Lists(order, c.rows)
    ensures Reloaded(c, order).members == c.members && Reloaded(c, order).owner == c.owner
    ensures forall q :: Banned(Reloaded(c, order), q) == Banned(c, q)
  {
    hide Has;
    LastOwnerIs(c.rows, order, c.owner);
  }

  lemma {:induction false} NoOwnerFound(rows: Members, order: seq<nat>)
    requires forall p :: p in rows ==> !Has(rows[p].flags, OWNER)
    ensures LastOwner(rows, order) == 0
    decreases |order|
  {
    if order != [] {
      NoOwnerFound(rows, order[..|order| - 1]);
    }
  }

  /**
   After the owner's logout the database names one owner exactly if both writes reached it or neither did:
   with only the second there are two owners, with only the first there is none.
   */
  lemma LogoutThenReload(c: Channel, p: nat, heir: nat, deposed: bool, saved: bool, order: seq<nat>)
    requires OneOwner(c) && c.rows == c.members && LeavesOthers(c, p) && IsHeir(c.members - {p}, heir)
    requires Lists(order, c.rows)
    ensures OneOwner(Reloaded(LoggedOut(c, p, heir, deposed, saved), order)) <==> deposed == saved
  {
    hide Has, With, Without;
    var rows := LoggedOut(c, p, heir, deposed, saved).rows;
    OwnerBit(c.members[p].flags);
    OwnerBit(c.members[heir].flags);
    assert forall q :: q in rows <==> q in c.rows;
    assert forall q :: q in rows && q != p && q != heir ==> rows[q] == c.rows[q];
    assert heir != p && Has(rows[p].flags, OWNER) == !deposed && Has(rows[heir].flags, OWNER) == saved;
    if deposed == saved {
      LastOwnerIs(rows, order, if deposed then heir else p);
    } else if deposed {
      NoOwnerFound(rows, order);
    }
  }
}
