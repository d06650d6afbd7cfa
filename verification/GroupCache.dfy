/**
 The in-memory group cache on the heap: groups with Go slices of members, and an index of pointers
 into those slices.  Each method is proved against its specification function in GroupSlices.
 Every operation first writes to the repository; `stored` says whether that write succeeded.
 */
module GroupCache {
  import opened GroupSlices

  const ZeroMember := Member(0, 0, false, 0)

  /** A group and its member slice: `backing[..len]`, with capacity `backing.Length`. */
  class Group {
    const id: nat
    var backing: array<Member>
    var len: nat

    constructor (id: nat, backing: array<Member>, len: nat)
      ensures this.id == id && this.backing == backing && this.len == len
    {
      this.id, this.backing, this.len := id, backing, len;
    }
  }

  /** The index the program keeps holds the pointers of the entries. */
  ghost predicate Mirrors<A>(index: map<nat, Pointer<A>>, players: map<nat, Entry<A>>) {
    (forall p :: p in index <==> p in players) && forall p :: p in players ==> index[p] == players[p].ptr
  }

  /** What a load of the database yields: groups with their own members, no group and no player twice. */
  ghost predicate Loadable(ids: seq<nat>, lists: seq<seq<Member>>) {
    && |ids| == |lists|
    && (forall k :: 0 <= k < |ids| ==> ids[k] != 0 && DistinctPlayers(lists[k]))
    && (forall k, i :: 0 <= k < |ids| && 0 <= i < |lists[k]| ==> lists[k][i].groupID == ids[k])
    && (forall k, l :: 0 <= k < l < |ids| ==> ids[k] != ids[l])
    && (forall k, l :: 0 <= k < l < |ids| ==> NoCommonPlayer(lists[k], lists[l]))
  }

  ghost predicate NoCommonPlayer(a: seq<Member>, b: seq<Member>) {
    forall i, j :: 0 <= i < |a| && 0 <= j < |b| ==> a[i].guid != b[j].guid
  }

  /** The cache holds exactly the first k of these groups, with these lists. */
  ghost predicate Holds<A>(c: Cache<A>, ids: seq<nat>, lists: seq<seq<Member>>, k: nat)
    requires SlicesOk(c) && k <= |ids| && |ids| == |lists|
  {
    && (forall g :: g in c.slices <==> g in ids[..k])
    && forall j :: 0 <= j < k ==> ids[j] in c.slices && List(c, ids[j]) == lists[j]
  }

  /** The next loaded group brings only players that are not in the cache yet. */
  lemma NextIsNew<A>(c: Cache<A>, ids: seq<nat>, lists: seq<seq<Member>>, k: nat)
    requires Loadable(ids, lists) && k < |ids| && Ok(c) && Holds(c, ids, lists, k)
    ensures ids[k] != 0 && ids[k] !in c.slices && NewList(c, ids[k], lists[k])
  {
    forall p, i | p in c.players && 0 <= i < |lists[k]| ensures lists[k][i].guid != p {
      var j :| 0 <= j < k && ids[j] == c.players[p].group;
      assert List(c, ids[j])[c.players[p].pos].guid == p;
      assert NoCommonPlayer(lists[j], lists[k]);
    }
  }

  lemma NothingHeld<A>(index: map<nat, Pointer<A>>, c: Cache<A>, ids: seq<nat>, lists: seq<seq<Member>>)
    requires index == map[] && c.slices == map[] && c.players == map[] && |ids| == |lists|
    ensures SlicesOk(c) && Holds(c, ids, lists, 0) && Mirrors(index, c.players)
  {
  }

  lemma OneMoreHeld<A>(c: Cache<A>, c': Cache<A>, ids: seq<nat>, lists: seq<seq<Member>>, k: nat,
                       arr: A, slots: seq<Member>, len: nat)
    requires Loadable(ids, lists) && k < |ids| && Ok(c) && AllCurrent(c) && Holds(c, ids, lists, k)
    requires arr !in c.arrays && len <= |slots| && slots[..len] == lists[k] && Created(c, c', ids[k], arr, slots, len)
    ensures Ok(c') && AllCurrent(c') && Holds(c', ids, lists, k + 1)
    ensures forall a :: a in c'.arrays <==> a in c.arrays || a == arr
  {
    NextIsNew(c, ids, lists, k);
    CreatedEffect(c, c', ids[k], arr, slots, len);
    hide SlicesOk, PlayersListed, ListsIndexed, PointersOk, AllCurrent, List, NoCommonPlayer, DistinctPlayers;
    assert c'.slices == c.slices[ids[k] := Slice(arr, len)];
  }

  /** The index without the players of `list`. */
  ghost predicate Forgotten<A>(was: map<nat, Pointer<A>>, now: map<nat, Pointer<A>>, list: seq<Member>) {
    && (forall p :: p in now <==> p in was && forall i :: 0 <= i < |list| ==> list[i].guid != p)
    && forall p :: p in now ==> now[p] == was[p]
  }

  /** Where a linear search stops: at the first entry with this GUID, or past the end. */
  ghost predicate FirstAt(list: seq<Member>, guid: nat, i: nat) {
    i <= |list| && (forall j :: 0 <= j < i ==> list[j].guid != guid) && (i < |list| ==> list[i].guid == guid)
  }

  class GroupsCache {
    var groups: map<nat, Group>
    var index: map<nat, Pointer<array<Member>>>
    ghost var state: Cache<array<Member>>

    /** The groups and the arrays in memory are these. */
    ghost predicate HeapShows(slices: map<nat, Slice<array<Member>>>, arrays: map<array<Member>, Backing>)
      reads `groups, groups.Values, arrays.Keys
    {
      && (forall a :: a in arrays ==> a[..] == arrays[a].slots)
      && (forall g :: g in groups <==> g in slices)
      && forall g :: g in groups ==> groups[g].id == g && Slice(groups[g].backing, groups[g].len) == slices[g]
    }

    /** Memory holds exactly the cache state. */
    ghost predicate InMemory()
      reads this, groups.Values, state.arrays.Keys
    {
      HeapShows(state.slices, state.arrays) && Mirrors(index, state.players)
    }

    ghost predicate Valid()
      reads this, groups.Values, state.arrays.Keys
    {
      Ok(state) && InMemory()
    }

    /** A group's slice in memory is the one the cache state has for it. */
    lemma GroupInMemory(g: nat)
      requires Valid()
      ensures g in groups <==> g in state.slices
      ensures g in groups ==>
                var group := groups[g];
                && group.id == g && state.slices[g] == Slice(group.backing, group.len)
                && group.backing in state.arrays && state.arrays[group.backing] == Backing(g, group.backing[..])
                && group.len <= group.backing.Length && List(state, g) == group.backing[..group.len]
    {
      hide PlayersListed, ListsIndexed, PointersOk, Mirrors;
    }

    constructor ()
      ensures Valid() && state == Cache(map[], map[], map[])
    {
      groups, index, state := map[], map[], Cache(map[], map[], map[]);
    }

    /** The group a player is in, read through a pointer that may be stale. */
    method GroupIDByPlayer(p: nat) returns (g: nat)
      requires Valid()
      ensures forall h :: g == h && h != 0 <==> InGroup(state, h, p)
    {
      GroupReadIsExact(state, p);
      if p in index {
        g := index[p].arr[index[p].idx].groupID;
      } else {
        g := 0;
      }
      assert g == GroupRead(state, p);
    }

    method GroupByID(g: nat) returns (group: Group?)
      requires Valid()
      ensures group == null <==> g !in state.slices
      ensures group != null ==> group.len <= group.backing.Length && group.backing[..group.len] == List(state, g)
    {
      group := if g in groups then groups[g] else null;
    }

    /** Login and logout. */
    method SetOnline(p: nat, online: bool)
      requires Valid()
      modifies state.arrays.Keys, `state
      ensures Valid() && state == OnlineSet(old(state), p, online)
    {
      hide SlicesOk, PlayersListed, ListsIndexed, PointersOk, HeapShows, Mirrors, Overwritten, InGroup;
      PlacedInGroup(index, state, p);
      if p in index {
        OnlineSetOk(state, p, online);
        WriteFlag(index[p], online);
        state := OnlineSet(state, p, online);
      }
    }

    /** `member.IsOnline = online`, through the pointer. */
    method WriteFlag(ptr: Pointer<array<Member>>, online: bool)
      requires HeapShows(state.slices, state.arrays)
      requires ptr.arr in state.arrays && ptr.idx < |state.arrays[ptr.arr].slots|
      modifies ptr.arr
      ensures HeapShows(state.slices, Overwritten(state.arrays, ptr, state.arrays[ptr.arr].slots[ptr.idx].(online := online)))
    {
      assert ptr.arr[..] == state.arrays[ptr.arr].slots;
      ptr.arr[ptr.idx] := ptr.arr[ptr.idx].(online := online);
    }

    /** If one of the players is in a group already, the index leaves that group. */
    method Create(group: Group, stored: bool)
      requires Valid()
      requires group.id != 0 && group.id !in groups && group.backing !in state.arrays && group.len <= group.backing.Length
      modifies this
      ensures !stored ==> Valid() && groups == old(groups) && state == old(state)
      ensures stored ==> InMemory() && groups == old(groups)[group.id := group]
                         && Created(old(state), state, group.id, group.backing, group.backing[..], group.len)
      ensures stored && NewList(old(state), group.id, group.backing[..group.len]) ==> Valid()
    {
      hide SlicesOk, PlayersListed, ListsIndexed, PointersOk, NewList, Created, Mirrors, HeapShows, IndexedPlayers;
      if stored {
        ghost var c, slots := state, group.backing[..];
        assert slots[..group.len] == group.backing[..group.len];
        GroupInMemory(group.id);
        Enter(group);
        state := Installed(c, group.id, group.backing, slots, group.len);
        IndexMembers(group, c);
        CreatedWhenIndexed(c, state, group.id, group.backing, slots, group.len);
        if NewList(c, group.id, slots[..group.len]) {
          assert Ok(state) by { CreatedEffect(c, state, group.id, group.backing, slots, group.len); }
        }
      }
    }

    /** `g.groupsCache[realmID][group.ID] = group`. */
    method Enter(group: Group)
      requires HeapShows(state.slices, state.arrays) && group.id !in groups && group.backing !in state.arrays
      modifies `groups
      ensures groups == old(groups)[group.id := group]
      ensures HeapShows(state.slices[group.id := Slice(group.backing, group.len)],
                        state.arrays[group.backing := Backing(group.id, group.backing[..])])
    {
      groups := groups[group.id := group];
    }

    /** The loop that points the index at every slot of a group; `c` is the cache before the group came. */
    method IndexMembers(group: Group, ghost c: Cache<array<Member>>)
      requires group.len <= group.backing.Length
      requires Mirrors(index, c.players) && state.players == c.players
      modifies `index, `state
      ensures Mirrors(index, state.players)
      ensures state == old(state).(players := IndexedPlayers(c.players, group.id, group.backing, group.backing[..group.len]))
    {
      hide Mirrors;
      var arr := group.backing;
      ghost var list := arr[..group.len];
      for i := 0 to group.len
        invariant Mirrors(index, state.players)
        invariant state == old(state).(players := IndexedPlayers(c.players, group.id, arr, list[..i]))
      {
        assert list[..i + 1][..i] == list[..i] && list[i] == arr[i];
        PlacedMirrors(index, state.players, arr[i].guid, Entry(Pointer(arr, i), group.id, i));
        index := index[arr[i].guid := Pointer(arr, i)];
        state := state.(players := state.players[arr[i].guid := Entry(Pointer(arr, i), group.id, i)]);
      }
      assert list[..group.len] == list;
    }

    /**
     `Warmup` at the start of a realm: everything that was cached is forgotten, the loaded groups are cached
     and every slot of theirs is indexed.
     */
    method Warmup(loaded: seq<Group>, ghost ids: seq<nat>, ghost lists: seq<seq<Member>>)
      requires Valid() && |loaded| == |ids| == |lists| && Loadable(ids, lists)
      requires forall k :: 0 <= k < |loaded| ==>
                 && loaded[k].id == ids[k] && loaded[k].len <= loaded[k].backing.Length
                 && loaded[k].backing[..loaded[k].len] == lists[k] && loaded[k].backing !in state.arrays
      requires forall k, l :: 0 <= k < l < |loaded| ==> loaded[k].backing != loaded[l].backing
      modifies this
      ensures Valid() && AllCurrent(state) && Holds(state, ids, lists, |ids|)
      ensures forall k :: 0 <= k < |loaded| ==> loaded[k].id in groups && groups[loaded[k].id] == loaded[k]
    {
      hide SlicesOk, PlayersListed, ListsIndexed, PointersOk, AllCurrent, Holds, Loadable, NewList, Created, Mirrors, HeapShows;
      Forget();
      EmptyOk(state);
      NothingHeld(index, state, ids, lists);
      for k := 0 to |loaded|
        invariant Valid() && AllCurrent(state) && Holds(state, ids, lists, k)
        invariant forall j :: 0 <= j < k ==> loaded[j].id in groups && groups[loaded[j].id] == loaded[j]
        invariant forall j :: k <= j < |loaded| ==> loaded[j].backing !in state.arrays
      {
        NextIsNew(state, ids, lists, k);
        GroupInMemory(ids[k]);
        ghost var c := state;
        Create(loaded[k], true);
        OneMoreHeld(c, state, ids, lists, k, loaded[k].backing, loaded[k].backing[..], loaded[k].len);
      }
    }

    method Forget()
      requires Valid()
      modifies this
      ensures Valid() && groups == map[] && index == map[] && state == Cleared(old(state))
    {
      hide SlicesOk, PlayersListed, ListsIndexed, PointersOk;
      groups, index, state := map[], map[], Cleared(state);
      EmptyOk(state);
    }

    method Delete(g: nat, stored: bool)
      requires Valid() && g in groups
      modifies this
      ensures Valid()
      ensures !stored ==> groups == old(groups) && state == old(state)
      ensures stored ==> groups == old(groups) - {g} && state == Deleted(old(state), g)
    {
      hide SlicesOk, PlayersListed, ListsIndexed, PointersOk, InGroup, Mirrors, HeapShows, Forgotten, List;
      if stored {
        GroupInMemory(g);
        assert Ok(Deleted(state, g)) by { DeletedEffect(state, g); }
        ForgetMembers(groups[g]);
        ForgottenMirrors(old(index), index, state, g);
        Drop(g);
        state := Deleted(state, g);
      }
    }

    /** `delete(g.groupsCache[realmID], groupID)`. */
    method Drop(g: nat)
      requires HeapShows(state.slices, state.arrays)
      modifies `groups
      ensures groups == old(groups) - {g} && HeapShows(state.slices - {g}, state.arrays)
    {
      groups := groups - {g};
    }

    /** The loop that takes every member of a group out of the index. */
    method ForgetMembers(group: Group)
      requires group.len <= group.backing.Length
      modifies `index
      ensures Forgotten(old(index), index, group.backing[..group.len])
    {
      for i := 0 to group.len
        invariant forall p :: p in index <==> p in old(index) && forall j :: 0 <= j < i ==> group.backing[j].guid != p
        invariant forall p :: p in index ==> index[p] == old(index)[p]
      {
        index := index - {group.backing[i].guid};
      }
    }

    /**
     Appends to the group's slice; when that is full the list moves, to an array with `spare` unused slots.
     A player who is in a group already is appended all the same.
     */
    method AddMember(m: Member, spare: nat, stored: bool)
      requires Valid() && m.groupID in groups
      modifies `index, `state, groups[m.groupID], groups[m.groupID].backing
      ensures !stored ==> Valid() && state == old(state)
      ensures InMemory()
      ensures stored ==> state == MemberAdded(old(state), m, groups[m.groupID].backing, seq(spare, _ => ZeroMember))
      ensures stored && old(HasRoom(state, m.groupID)) ==> groups[m.groupID].backing == old(groups[m.groupID].backing)
      ensures stored && !old(HasRoom(state, m.groupID)) ==> groups[m.groupID].backing !in old(state.arrays)
      ensures m.guid !in old(index) ==> Valid()
    {
      hide SlicesOk, PlayersListed, ListsIndexed, PointersOk, Mirrors, HeapShows, MemberAdded;
      if stored {
        GroupInMemory(m.groupID);
        var group := groups[m.groupID];
        ghost var c := state;
        PlacedInGroup(index, c, m.guid);
        Append(group, m, spare);
        ghost var c' := MemberAdded(c, m, group.backing, seq(spare, _ => ZeroMember));
        if m.guid !in old(index) {
          assert Ok(c') by { MemberAddedEffect(c, m, group.backing, seq(spare, _ => ZeroMember)); }
        }
        AddedParts(c, m, group.backing, seq(spare, _ => ZeroMember));
        PlacedMirrors(index, c.players, m.guid, Entry(Pointer(group.backing, group.len - 1), m.groupID, group.len - 1));
        index := index[m.guid := Pointer(group.backing, group.len - 1)];
        state := c';
      }
    }

    /** `append(group.Members, m)`: in place, or in a larger array with `spare` unused slots. */
    method Append(group: Group, m: Member, spare: nat)
      requires HeapShows(state.slices, state.arrays) && group.id in groups && groups[group.id] == group
      requires group.backing in state.arrays && group.len <= group.backing.Length
      modifies group, group.backing
      ensures group.len == old(group.len) + 1
      ensures old(group.len < group.backing.Length)
              ==> group.backing == old(group.backing)
                  && HeapShows(state.slices[group.id := Slice(group.backing, group.len)],
                               Overwritten(state.arrays, Pointer(group.backing, group.len - 1), m))
      ensures old(group.len == group.backing.Length)
              ==> group.backing !in state.arrays
                  && HeapShows(state.slices[group.id := Slice(group.backing, group.len)],
                               state.arrays[group.backing := Backing(group.id, old(group.backing[..group.len]) + [m]
                                                                               + seq(spare, _ => ZeroMember))])
    {
      if group.len < group.backing.Length {
        group.backing[group.len] := m;
      } else {
        group.backing := Grown(group.backing, group.len, m, spare);
      }
      group.len := group.len + 1;
    }

    method UpdateMember(m: Member, stored: bool)
      requires Valid() && m.groupID in groups
      modifies `index, `state, groups[m.groupID].backing
      ensures Valid()
      ensures state == if stored then MemberUpdated(old(state), m) else old(state)
    {
      hide SlicesOk, PlayersListed, ListsIndexed, PointersOk, InGroup, Mirrors, HeapShows, FirstAt, List, Overwritten;
      if stored {
        GroupInMemory(m.groupID);
        var group := groups[m.groupID];
        var i := Find(group, m.guid);
        FoundWhere(state, m.groupID, m.guid, i);
        assert Ok(MemberUpdated(state, m)) by { MemberUpdatedEffect(state, m); }
        if i < group.len {
          Overwrite(group, i, m);
          PlacedMirrors(index, state.players, m.guid, state.players[m.guid].(ptr := Pointer(group.backing, i)));
          index := index[m.guid := Pointer(group.backing, i)];
        }
        state := MemberUpdated(state, m);
      }
    }

    /** `group.Members[i] = m`. */
    method Overwrite(group: Group, i: nat, m: Member)
      requires HeapShows(state.slices, state.arrays) && group.backing in state.arrays && i < group.len <= group.backing.Length
      modifies group.backing
      ensures HeapShows(state.slices, Overwritten(state.arrays, Pointer(group.backing, i), m))
    {
      group.backing[i] := m;
    }

    method RemoveMember(p: nat, stored: bool)
      requires Valid() && p in index
      modifies `index, `state, groups[state.players[p].group], groups[state.players[p].group].backing
      ensures Valid()
      ensures state == if stored then MemberRemoved(old(state), p) else old(state)
    {
      hide SlicesOk, PlayersListed, ListsIndexed, PointersOk, InGroup, Mirrors;
      hide HeapShows, ShiftedLeft, FirstAt, List, MemberRemoved;
      if stored {
        PlacedInGroup(index, state, p);
        var g := GroupIDByPlayer(p);
        IndexedMeansInGroup(state, state.players[p].group, p);
        GroupInMemory(g);
        var group := groups[g];
        var i := Find(group, p);
        FoundWhere(state, g, p, i);
        assert Ok(MemberRemoved(state, p)) by { MemberRemovedEffect(state, p); }
        RemovedParts(state, p);
        RemovedMirrors(index, state, p);
        Cut(group, i);
        index := index - {p};
        state := MemberRemoved(state, p);
      }
    }

    /** `group.Members = append(group.Members[:i], group.Members[i+1:]...)`. */
    method Cut(group: Group, i: nat)
      requires HeapShows(state.slices, state.arrays) && group.id in groups && groups[group.id] == group
      requires group.backing in state.arrays && i < group.len <= group.backing.Length
      modifies group, group.backing
      ensures group.len == old(group.len) - 1 && group.backing == old(group.backing)
      ensures HeapShows(state.slices[group.id := Slice(group.backing, group.len)],
                        state.arrays[group.backing := Backing(state.arrays[group.backing].home,
                                                              ShiftedLeft(old(group.backing[..]), i, old(group.len)))])
    {
      hide ShiftedLeft;
      ShiftLeft(group.backing, i, group.len);
      group.len := group.len - 1;
    }
  }

  lemma PlacedInGroup(index: map<nat, Pointer<array<Member>>>, c: Cache<array<Member>>, p: nat)
    requires Ok(c) && Mirrors(index, c.players)
    ensures p in index <==> p in c.players
    ensures p in index ==> index[p] == c.players[p].ptr && c.players[p].group in c.slices
    ensures p in index ==> LeadsToGroup(c.arrays, index[p], c.players[p].group)
  {
  }

  /** Taking the players of one list out of the index leaves the index of the other groups. */
  lemma ForgottenMirrors(was: map<nat, Pointer<array<Member>>>, now: map<nat, Pointer<array<Member>>>,
                         c: Cache<array<Member>>, g: nat)
    requires Ok(c) && g in c.slices && Mirrors(was, c.players) && Forgotten(was, now, List(c, g))
    ensures Mirrors(now, Deleted(c, g).players)
  {
    hide SlicesOk, PlayersListed, ListsIndexed, PointersOk, List;
    forall p | p in was ensures p in now <==> c.players[p].group != g {
      ListHolds(c, g, p);
    }
  }

  lemma ListHolds(c: Cache<array<Member>>, g: nat, p: nat)
    requires Ok(c) && g in c.slices
    ensures (p in c.players && c.players[p].group == g) <==> exists i :: 0 <= i < |List(c, g)| && List(c, g)[i].guid == p
  {
    hide PointersOk;
    if p in c.players && c.players[p].group == g {
      assert List(c, g)[c.players[p].pos].guid == p;
    }
    if i: nat :| i < |List(c, g)| && List(c, g)[i].guid == p {
      assert At(c, g, i).guid == p;
    }
  }

  /** The first list entry that carries a player's GUID is the one the player is placed at. */
  lemma FoundWhere(c: Cache<array<Member>>, g: nat, p: nat, i: nat)
    requires Ok(c) && g in c.slices
    requires FirstAt(List(c, g), p, i)
    ensures i < c.slices[g].len <==> p in c.players && c.players[p].group == g
    ensures i < c.slices[g].len ==> c.players[p].pos == i
  {
    assert forall j: nat :: j < c.slices[g].len ==> List(c, g)[j] == At(c, g, j);
  }

  lemma PlacedMirrors<A>(index: map<nat, Pointer<A>>, players: map<nat, Entry<A>>, p: nat, e: Entry<A>)
    requires Mirrors(index, players)
    ensures Mirrors(index[p := e.ptr], players[p := e])
  {
  }

  lemma AddedParts(c: Cache<array<Member>>, m: Member, arr: array<Member>, spare: seq<Member>)
    requires Ok(c) && m.groupID in c.slices
    ensures var g, c' := m.groupID, MemberAdded(c, m, arr, spare);
            var s := c.slices[g];
            var home := if HasRoom(c, g) then s.arr else arr;
            && c'.slices == c.slices[g := Slice(home, s.len + 1)]
            && c'.players == c.players[m.guid := Entry(Pointer(home, s.len), g, s.len)]
            && c'.arrays == if HasRoom(c, g) then Overwritten(c.arrays, Pointer(s.arr, s.len), m)
                            else c.arrays[arr := Backing(g, List(c, g) + [m] + spare)]
  {
  }

  lemma RemovedParts(c: Cache<array<Member>>, p: nat)
    requires Ok(c) && p in c.players
    ensures var g, c' := c.players[p].group, MemberRemoved(c, p);
            var s := c.slices[g];
            && c'.slices == c.slices[g := Slice(s.arr, s.len - 1)]
            && c.arrays[s.arr].home == g
            && c'.arrays == c.arrays[s.arr := Backing(g, ShiftedLeft(c.arrays[s.arr].slots, c.players[p].pos, s.len))]
  {
  }

  lemma RemovedMirrors(index: map<nat, Pointer<array<Member>>>, c: Cache<array<Member>>, p: nat)
    requires Ok(c) && p in c.players && Mirrors(index, c.players)
    ensures Mirrors(index - {p}, MemberRemoved(c, p).players)
  {
    hide SlicesOk, ListsIndexed, PointersOk, PlayersListed, ShiftedLeft;
  }

  /** The linear search over a member list. */
  method Find(group: Group, guid: nat) returns (i: nat)
    requires group.len <= group.backing.Length
    ensures FirstAt(group.backing[..group.len], guid, i)
  {
    i := 0;
    while i < group.len && group.backing[i].guid != guid
      invariant i <= group.len && forall j: nat :: j < i ==> group.backing[j].guid != guid
    {
      i := i + 1;
    }
  }

  /** What `append` allocates when the slice is full. */
  method Grown(backing: array<Member>, len: nat, m: Member, spare: nat) returns (arr: array<Member>)
    requires len <= backing.Length
    ensures fresh(arr) && arr[..] == backing[..len] + [m] + seq(spare, _ => ZeroMember)
  {
    arr := new Member[len + 1 + spare](_ => ZeroMember);
    for i := 0 to len
      invariant arr[..i] == backing[..i]
      invariant forall j :: len < j < arr.Length ==> arr[j] == ZeroMember
    {
      arr[i] := backing[i];
    }
    arr[len] := m;
  }

  /** `append(list[:i], list[i+1:]...)`: the later entries move down one slot, in place. */
  method ShiftLeft(backing: array<Member>, i: nat, len: nat)
    requires i < len <= backing.Length
    modifies backing
    ensures backing[..] == ShiftedLeft(old(backing[..]), i, len)
  {
    for j := i to len - 1
      invariant forall k :: 0 <= k < backing.Length ==>
                  backing[k] == if i <= k < j then old(backing[k + 1]) else old(backing[k])
    {
      backing[j] := backing[j + 1];
    }
    ShiftedSlots(old(backing[..]), i, len);
  }

  lemma CreatedWhenIndexed<A>(c: Cache<A>, c': Cache<A>, g: nat, arr: A, slots: seq<Member>, len: nat)
    requires len <= |slots|
    requires c' == Installed(c, g, arr, slots, len).(players := IndexedPlayers(c.players, g, arr, slots[..len]))
    ensures Created(c, c', g, arr, slots, len)
  {
  }
}
