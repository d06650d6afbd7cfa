/**
 The active channel as the program keeps it, updated in place with write-through to a repository.
 Each method is proved against the operation it performs in ChannelState.  The boolean parameters
 say which of its database writes succeed; handlers run one at a time under the channel's lock.
 */
module ChatChannel {
  import opened ChannelState

  datatype Error =
    | NoError | PlayerBanned | WrongPassword | NotMember | NotModerator | PlayerNotFound | DatabaseFailed

  /** The member and ban rows of one channel. */
  class Repo {
    var rows: Members
    var banRows: map<nat, nat>

    constructor ()
      ensures rows == map[] && banRows == map[]
    {
      rows, banRows := map[], map[];
    }

    method SaveChannelMember(p: nat, m: Member, ok: bool)
      modifies `rows
      ensures rows == if ok then old(rows)[p := m] else old(rows)
    {
      if ok { rows := rows[p := m]; }
    }

    method RemoveChannelMember(p: nat, ok: bool)
      modifies `rows
      ensures rows == if ok then old(rows) - {p} else old(rows)
    {
      if ok { rows := rows - {p}; }
    }

    method UpdateMemberFlags(p: nat, flags: bv8, ok: bool)
      modifies `rows
      ensures rows == if ok then Flagged(old(rows), p, flags) else old(rows)
    {
      if ok && p in rows { rows := rows[p := rows[p].(flags := flags)]; }
    }
  }

  class ActiveChannel {
    const repo: Repo
    const ownership: bool
    const moderators: seq<nat>
    var password: string
    var ownerGUID: nat
    var members: Members
    var bannedUntil: map<nat, nat>

    /** Players have non-zero GUIDs: 0 stands for nobody. */
    ghost predicate Valid()
      reads this
    {
      0 !in members
    }

    ghost function State(now: nat): Channel
      reads this, repo
    {
      Channel(ownership, moderators, password, ownerGUID, members, repo.rows, bannedUntil, repo.banRows, now)
    }

    /** A new channel: nobody is in it. */
    constructor (repo: Repo, ownership: bool, moderators: seq<nat>, password: string)
      ensures Valid() && this.repo == repo && this.ownership == ownership && this.moderators == moderators
      ensures members == map[] && bannedUntil == map[] && this.password == password
    {
      this.repo, this.ownership, this.moderators, this.password := repo, ownership, moderators, password;
      ownerGUID, members, bannedUntil := 0, map[], map[];
    }

    /** A channel loaded from its rows, in the order in which the queries return them. */
    constructor Load(repo: Repo, ownership: bool, moderators: seq<nat>, password: string,
                     order: seq<nat>, banOrder: seq<nat>, now: nat)
      requires Lists(order, repo.rows) && 0 !in repo.rows && forall p :: p in banOrder <==> p in repo.banRows
      ensures Valid() && this.repo == repo
      ensures forall c: Channel :: c.ownership == ownership && c.moderators == moderators && c.password == password
                && c.rows == repo.rows && c.banRows == repo.banRows && c.clock == now
                ==> State(now) == Reloaded(c, order)
      ensures members == repo.rows && LastIsOwner(repo.rows, order, ownerGUID)
      ensures forall p :: p in bannedUntil <==> p in repo.banRows && repo.banRows[p] > now
      ensures forall p :: p in bannedUntil ==> bannedUntil[p] == repo.banRows[p]
    {
      this.repo, this.ownership, this.moderators, this.password := repo, ownership, moderators, password;
      ownerGUID, members, bannedUntil := 0, map[], map[];
      new;
      LoadBans(banOrder, now);
      LoadMembers(order);
      LastOwnerIsLast(repo.rows, order);
    }

    method LoadBans(banOrder: seq<nat>, now: nat)
      requires bannedUntil == map[] && forall p :: p in banOrder <==> p in repo.banRows
      modifies `bannedUntil
      ensures bannedUntil == map p | p in repo.banRows && repo.banRows[p] > now :: repo.banRows[p]
    {
      for i := 0 to |banOrder|
        invariant forall p :: p in bannedUntil <==> p in banOrder[..i] && repo.banRows[p] > now
        invariant forall p :: p in bannedUntil ==> bannedUntil[p] == repo.banRows[p]
      {
        if repo.banRows[banOrder[i]] > now {
          bannedUntil := bannedUntil[banOrder[i] := repo.banRows[banOrder[i]]];
        }
      }
    }

    method LoadMembers(order: seq<nat>)
      requires Lists(order, repo.rows) && members == map[] && ownerGUID == 0
      modifies `members, `ownerGUID
      ensures members == repo.rows && ownerGUID == LastOwner(repo.rows, order)
    {
      hide Has;
      for i := 0 to |order|
        invariant forall p :: p in members <==> p in order[..i]
        invariant forall p :: p in members ==> members[p] == repo.rows[p]
        invariant ownerGUID == LastOwner(repo.rows, order[..i])
      {
        members := members[order[i] := repo.rows[order[i]]];
        if Has(repo.rows[order[i]].flags, OWNER) {
          ownerGUID := order[i];
        }
        assert order[..i + 1][..i] == order[..i];
      }
      assert order[..|order|] == order;
    }

    /** The two loops that look for a new owner, passing over the one who goes. */
    method FindSuccessor(skip: nat) returns (heir: nat)
      requires Valid()
      ensures heir == 0 <==> members - {skip} == map[]
      ensures heir != 0 ==> IsHeir(members - {skip}, heir)
    {
      hide Has;
      heir := FindModerator(skip);
      if heir == 0 {
        heir := FindAnybody(skip);
      }
      if heir != 0 {
        assert heir in members - {skip};
      }
    }

    method FindModerator(skip: nat) returns (heir: nat)
      requires Valid()
      ensures heir != 0 ==> heir in members && heir != skip && Has(members[heir].flags, MODERATOR)
      ensures heir == 0 ==> forall p :: p in members && p != skip ==> !Has(members[p].flags, MODERATOR)
    {
      hide Has;
      heir := 0;
      var left := members.Keys;
      while left != {} && heir == 0
        invariant left <= members.Keys
        invariant heir == 0 ==> forall p :: p in members && p !in left && p != skip ==> !Has(members[p].flags, MODERATOR)
        invariant heir != 0 ==> heir in members && heir != skip && Has(members[heir].flags, MODERATOR)
        decreases |left|
      {
        var guid :| guid in left;
        left := left - {guid};
        if guid != skip && Has(members[guid].flags, MODERATOR) {
          heir := guid;
        }
      }
    }

    method FindAnybody(skip: nat) returns (heir: nat)
      requires Valid()
      ensures heir != 0 ==> heir in members && heir != skip
      ensures heir == 0 ==> forall p :: p in members ==> p == skip
    {
      heir := 0;
      var left := members.Keys;
      while left != {} && heir == 0
        invariant left <= members.Keys
        invariant heir == 0 ==> forall p :: p in members && p !in left ==> p == skip
        invariant heir != 0 ==> heir in members && heir != skip
        decreases |left|
      {
        var guid :| guid in left;
        left := left - {guid};
        if guid != skip {
          heir := guid;
        }
      }
    }

    method JoinChannel(p: nat, name: string, pw: string, now: nat, saved: bool) returns (err: Error)
      requires Valid() && p != 0
      modifies this, repo
      ensures Valid() && State(now) == After(old(State(now)), Join(p, name, pw, saved))
      ensures repo.banRows == old(repo.banRows)
      ensures err == if p in old(bannedUntil) && old(bannedUntil)[p] > now then PlayerBanned
                     else if password != "" && password != pw then WrongPassword
                     else if p in old(members) || saved then NoError else DatabaseFailed
      ensures JoinEffect(old(State(now)), p, name, pw, saved, State(now))
    {
      hide With, FirstFlags, JoinEffect;
      JoinedIs(State(now), p, name, pw, saved);
      if p in bannedUntil && bannedUntil[p] > now {
        return PlayerBanned;
      }
      if password != "" && password != pw {
        return WrongPassword;
      }
      if p in members {
        return NoError;
      }
      err := Admit(p, name, saved);
    }

    /** The first member of a channel with owners becomes owner, even when the row cannot be saved. */
    method Admit(p: nat, name: string, saved: bool) returns (err: Error)
      requires Valid() && p != 0 && p !in members
      modifies `members, `ownerGUID, repo`rows
      ensures Valid() && err == if saved then NoError else DatabaseFailed
      ensures forall now :: State(now) == old(
                var c := State(now);
                var named := if c.members == map[] && c.ownership then c.(owner := p) else c;
                var m := Member(name, FirstFlags(c, p));
                if saved then named.(members := c.members[p := m], rows := c.rows[p := m]) else named)
    {
      hide With;
      var flags: bv8 := 0;
      if members == map[] && ownership {
        flags := OWNER;
        ownerGUID := p;
      }
      var moderator := IsModerator(p);
      if moderator {
        flags := With(flags, MODERATOR);
      }
      var m := Member(name, flags);
      members := members[p := m];
      repo.SaveChannelMember(p, m, saved);
      if !saved {
        members := members - {p};
        assert members == old(members);
        return DatabaseFailed;
      }
      return NoError;
    }

    /** The search through the moderators of the channel's rights. */
    method IsModerator(p: nat) returns (found: bool)
      ensures found <==> p in moderators
    {
      var i := 0;
      while i < |moderators| && moderators[i] != p
        invariant i <= |moderators| && p !in moderators[..i]
      {
        i := i + 1;
      }
      assert i == |moderators| ==> moderators[..i] == moderators;
      return i < |moderators|;
    }

    /** `members[p].Flags |= Owner`, the new owner, and the write that may be lost. */
    method Crown(p: nat, saved: bool)
      requires Valid() && p in members
      modifies `members, `ownerGUID, repo`rows
      ensures Valid() && ownerGUID == p && forall now :: State(now) == Crowned(old(State(now)), p, saved)
    {
      var flags := With(members[p].flags, OWNER);
      members := members[p := members[p].(flags := flags)];
      ownerGUID := p;
      repo.UpdateMemberFlags(p, flags, saved);
    }

    method LeaveChannel(p: nat, removed: bool, saved: bool, ghost now: nat) returns (newOwner: nat, err: Error)
      requires Valid()
      modifies `members, `ownerGUID, repo`rows
      ensures Valid() && Allowed(old(State(now)), Leave(p, newOwner, removed, saved))
      ensures State(now) == After(old(State(now)), Leave(p, newOwner, removed, saved))
      ensures newOwner != 0 <==> removed && LeavesOthers(old(State(now)), p)
      ensures err == if p !in old(members) then NotMember else if removed then NoError else DatabaseFailed
      ensures LeaveEffect(old(State(now)), p, newOwner, removed, saved, State(now))
    {
      hide Has, With, Crowned, LeaveEffect, IsHeir;
      ghost var c := State(now);
      if p !in members {
        LeftIs(c, p, 0, removed, saved);
        return 0, NotMember;
      }
      var member := members[p];
      members := members - {p};
      repo.RemoveChannelMember(p, removed);
      if !removed {
        members := members[p := member];
        assert members == old(members);
        LeftIs(c, p, 0, removed, saved);
        return 0, DatabaseFailed;
      }
      newOwner, err := 0, NoError;
      if Has(member.flags, OWNER) && members != map[] && ownership {
        assert members - {p} == members;
        newOwner := FindSuccessor(p);
        HeirIn(members - {p}, newOwner);
        Crown(newOwner, saved);
      }
      LeftIs(c, p, newOwner, removed, saved);
    }

    /** `SetModerator` and `SetMute`. */
    method SetMemberFlag(p: nat, bit: bv8, on: bool, saved: bool, ghost now: nat) returns (err: Error)
      requires Valid() && (bit == MODERATOR || bit == MUTED)
      modifies `members, repo`rows
      ensures Valid() && State(now) == After(old(State(now)), SetFlag(p, bit, on, saved))
      ensures err == if p !in old(members) then NotMember else if saved then NoError else DatabaseFailed
      ensures FlagEffect(old(State(now)), p, bit, on, saved, State(now))
      ensures err == NoError ==> p in members && (members[p].flags & bit != 0 <==> on)
      ensures err == NoError && p in repo.rows ==> (repo.rows[p].flags & bit != 0 <==> on)
    {
      hide With, Without, FlagEffect;
      FlagSetIs(State(now), p, bit, on, saved);
      if p in members && saved {
        FlagSetShows(State(now), p, bit, on, saved);
      }
      if p !in members {
        return NotMember;
      }
      var oldFlags := members[p].flags;
      var flags := if on then With(oldFlags, bit) else Without(oldFlags, bit);
      members := members[p := members[p].(flags := flags)];
      repo.UpdateMemberFlags(p, flags, saved);
      if !saved {
        members := members[p := members[p].(flags := oldFlags)];
        assert members == old(members);
        return DatabaseFailed;
      }
      return NoError;
    }

    method SetOwnerGUID(p: nat, deposed: bool, saved: bool, ghost now: nat) returns (err: Error)
      requires Valid()
      modifies `members, `ownerGUID, repo`rows
      ensures Valid() && State(now) == After(old(State(now)), SetOwner(p, deposed, saved))
      ensures err == if p !in old(members) then PlayerNotFound
                     else if saved && (old(ownerGUID) !in old(members) || deposed) then NoError else DatabaseFailed
      ensures OwnerEffect(old(State(now)), p, deposed, saved, State(now))
      ensures err == NoError ==> ownerGUID == p && p in members && members[p].flags & 0x01 != 0
    {
      hide Has, With, Without, Crowned, OwnerEffect;
      OwnerSetIs(State(now), p, deposed, saved);
      if p in members && saved && (ownerGUID !in members || deposed) {
        OwnerSetShows(State(now), p, deposed, saved);
      }
      if p !in members {
        return PlayerNotFound;
      }
      var oldOwnerFlags, failed := Depose(deposed);
      if failed {
        return DatabaseFailed;
      }
      var appointed := Appoint(p, saved);
      if !appointed {
        if ownerGUID != 0 && ownerGUID in members {
          members := members[ownerGUID := members[ownerGUID].(flags := oldOwnerFlags)];
        }
        assert members == old(members);
        return DatabaseFailed;
      }
      return NoError;
    }

    /** The second half of `SetOwner`: the new owner gets the flag, or keeps the old flags when the write fails. */
    method Appoint(p: nat, saved: bool) returns (appointed: bool)
      requires Valid() && p in members
      modifies `members, `ownerGUID, repo`rows
      ensures Valid() && appointed == saved
      ensures forall now :: State(now) == if saved then Crowned(old(State(now)), p, true) else old(State(now))
    {
      hide With;
      var newOwnerFlags := members[p].flags;
      members := members[p := members[p].(flags := With(newOwnerFlags, OWNER))];
      repo.UpdateMemberFlags(p, With(newOwnerFlags, OWNER), saved);
      if !saved {
        members := members[p := members[p].(flags := newOwnerFlags)];
        assert members == old(members);
        return false;
      }
      ownerGUID := p;
      return true;
    }

    /** The first half of `SetOwner`: the old owner, if there is one among the members, loses the flag. */
    method Depose(deposed: bool) returns (oldFlags: bv8, failed: bool)
      requires Valid()
      modifies `members, repo`rows
      ensures Valid() && failed == (ownerGUID in old(members) && !deposed)
      ensures forall now :: State(now) == if failed then old(State(now)) else Deposed(old(State(now)))
      ensures ownerGUID in old(members) ==> oldFlags == old(members)[ownerGUID].flags
    {
      hide Has, With, Without;
      oldFlags, failed := 0, false;
      if ownerGUID != 0 && ownerGUID in members {
        oldFlags := members[ownerGUID].flags;
        members := members[ownerGUID := members[ownerGUID].(flags := Without(oldFlags, OWNER))];
        repo.UpdateMemberFlags(ownerGUID, Without(oldFlags, OWNER), deposed);
        if !deposed {
          members := members[ownerGUID := members[ownerGUID].(flags := oldFlags)];
          assert members == old(members);
          failed := true;
        }
      }
    }

    /** `TransferOwnershipOnLogout` for one channel. */
    method TransferOnLogout(p: nat, deposed: bool, saved: bool, ghost now: nat) returns (newOwner: nat)
      requires Valid()
      modifies `members, `ownerGUID, repo`rows
      ensures Valid() && Allowed(old(State(now)), Logout(p, newOwner, deposed, saved))
      ensures State(now) == After(old(State(now)), Logout(p, newOwner, deposed, saved))
      ensures newOwner != 0 <==> LeavesOthers(old(State(now)), p)
      ensures LogoutEffect(old(State(now)), p, newOwner, deposed, saved, State(now))
    {
      hide Has, With, Without, Crowned, LogoutEffect, IsHeir;
      ghost var c := State(now);
      newOwner := 0;
      if p !in members || !Has(members[p].flags, OWNER) || !ownership {
        LoggedOutIs(c, p, 0, deposed, saved);
        return;
      }
      newOwner := FindSuccessor(p);
      if newOwner != 0 {
        HeirIn(members - {p}, newOwner);
        var flags := Without(members[p].flags, OWNER);
        members := members[p := members[p].(flags := flags)];
        repo.UpdateMemberFlags(p, flags, deposed);
        Crown(newOwner, saved);
      }
      LoggedOutIs(c, p, newOwner, deposed, saved);
    }

    method PruneOfflineMembers(online: set<nat>, failed: set<nat>, saved: bool, ghost now: nat)
      requires Valid()
      modifies `members, `ownerGUID, repo`rows
      ensures Valid() && Allowed(old(State(now)), Prune(online, ownerGUID, failed, saved))
      ensures State(now) == After(old(State(now)), Prune(online, ownerGUID, failed, saved))
      ensures PruneEffect(old(State(now)), online, ownerGUID, failed, saved, State(now))
    {
      hide Has, With, Without, Crowned, PruneEffect, IsHeir;
      ghost var c := State(now);
      var offline := members.Keys - online;
      RemoveAll(offline, failed, now);
      if ownerGUID != 0 && ownerGUID !in online {
        ownerGUID := 0;
        if members != map[] && ownership {
          assert members - {0} == members;
          var newOwner := FindSuccessor(0);
          HeirIn(members - {0}, newOwner);
          Crown(newOwner, saved);
        }
      }
      PrunedIs(c, online, ownerGUID, failed, saved);
    }

    /** The loop of `PruneOfflineMembers` that deletes each offline member, and tries to delete the row. */
    method RemoveAll(offline: set<nat>, failed: set<nat>, ghost now: nat)
      requires Valid() && offline <= members.Keys
      modifies `members, repo`rows
      ensures Valid()
      ensures State(now) == old(State(now)).(members := old(members) - offline, rows := old(repo.rows) - (offline - failed))
    {
      var left := offline;
      while left != {}
        invariant Valid() && left <= offline
        invariant members == old(members) - (offline - left)
        invariant repo.rows == old(repo.rows) - ((offline - left) - failed)
        decreases |left|
      {
        var guid :| guid in left;
        members := members - {guid};
        repo.RemoveChannelMember(guid, guid !in failed);
        left := left - {guid};
      }
      assert offline - {} == offline;
    }

    method FindMemberByName(name: string) returns (p: nat)
      requires Valid()
      ensures p == 0 <==> forall q :: q in members ==> members[q].name != name
      ensures p != 0 ==> p in members && members[p].name == name
    {
      p := 0;
      var left := members.Keys;
      while left != {} && p == 0
        invariant left <= members.Keys
        invariant p == 0 ==> forall q :: q in members && q !in left ==> members[q].name != name
        invariant p != 0 ==> p in members && members[p].name == name
        decreases |left|
      {
        var guid :| guid in left;
        left := left - {guid};
        if members[guid].name == name {
          p := guid;
        }
      }
    }

    /** The permission check that the by-name operations share: the flags of a non-member are none. */
    method CheckModerator(p: nat, ghost now: nat) returns (err: Error)
      requires Valid()
      ensures err == if MayModerate(State(now), p) then NoError else if p in members then NotModerator else NotMember
      ensures err == NoError <==> p in members && members[p].flags & 0x03 != 0
    {
      if p in members {
        HasIs(members[p].flags);
      }
      if p !in members {
        return NotMember;
      }
      return if Has(members[p].flags, MODERATOR) || Has(members[p].flags, OWNER) then NoError else NotModerator;
    }

    method BanPlayerByName(banner: nat, name: string, now: nat, removed: bool, saved: bool, stored: bool)
      returns (target: nat, err: Error, ghost heir: nat)
      requires Valid()
      modifies this, repo
      ensures Valid() && Allowed(old(State(now)), Ban(banner, target, heir, removed, saved, stored))
      ensures State(now) == After(old(State(now)), Ban(banner, target, heir, removed, saved, stored))
      ensures target != 0 <==>
                MayModerate(old(State(now)), banner) && exists q :: q in old(members) && old(members)[q].name == name
      ensures target != 0 ==> target in old(members) && old(members)[target].name == name
      ensures err == NoError <==> target != 0 && stored
      ensures BanEffect(old(State(now)), banner, target, heir, removed, saved, stored, State(now))
    {
      hide Has, With, Without, Crowned, Left, IsHeir, LeavesOthers, MayModerate, BanEffect, LeaveEffect;
      ghost var c := State(now);
      target, heir := 0, 0;
      err := CheckModerator(banner, now);
      if err != NoError {
        NobodyIsBanned(c, banner, 0, 0, removed, saved, stored);
        return;
      }
      target := FindMemberByName(name);
      if target == 0 {
        err := PlayerNotFound;
        NobodyIsBanned(c, banner, 0, 0, removed, saved, stored);
        return;
      }
      var newOwner, kicked := LeaveChannel(target, removed, saved, now);
      heir := newOwner;
      BanPlayer(target, now + HUNDRED_YEARS, stored);
      err := if stored then NoError else DatabaseFailed;
      BannedByNameIs(c, banner, target, heir, removed, saved, stored);
    }

    method BanPlayer(target: nat, until: nat, stored: bool)
      modifies `bannedUntil, repo`banRows
      ensures bannedUntil == old(bannedUntil)[target := until]
      ensures repo.banRows == if stored then old(repo.banRows)[target := until] else old(repo.banRows)
    {
      bannedUntil := bannedUntil[target := until];
      if stored {
        repo.banRows := repo.banRows[target := until];
      }
    }

    method UnbanPlayerByName(unbanner: nat, name: string, deleted: bool, ghost now: nat) returns (target: nat, err: Error)
      requires Valid()
      modifies `bannedUntil, repo`banRows
      ensures Valid() && State(now) == After(old(State(now)), Unban(unbanner, target, deleted))
      ensures target != 0 <==> MayModerate(old(State(now)), unbanner) && exists q :: q in members && members[q].name == name
      ensures target != 0 ==> target in members && members[target].name == name
      ensures err == NoError <==> target != 0 && deleted
      ensures UnbanEffect(old(State(now)), unbanner, target, deleted, State(now))
    {
      hide Has, UnbanEffect;
      ghost var c := State(now);
      UnbannedIs(c, unbanner, 0, deleted);
      target := 0;
      err := CheckModerator(unbanner, now);
      if err != NoError {
        err := NotModerator;
        return;
      }
      target := FindMemberByName(name);
      if target == 0 {
        err := PlayerNotFound;
        return;
      }
      UnbannedIs(c, unbanner, target, deleted);
      bannedUntil := bannedUntil - {target};
      if deleted {
        repo.banRows := repo.banRows - {target};
      } else {
        err := DatabaseFailed;
      }
    }
  }
}
