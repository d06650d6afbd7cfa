/**
 The group cache on values: slices, their backing arrays and the pointer index.

 `A` names a backing array.  A Go slice is a backing array whose length is the capacity, and a
 length.  Appending writes in place while there is room and moves to a larger array otherwise;
 removing shifts the tail left in place.  Pointers into an array do not follow.
 */
module GroupSlices {
  /** A slot value; `profile` stands for flags, name, subgroup and roles. */
  datatype Member = Member(groupID: nat, guid: nat, online: bool, profile: nat)

  datatype Slice<A> = Slice(arr: A, len: nat)

  datatype Pointer<A> = Pointer(arr: A, idx: nat)

  /** A backing array and the group it was made for. */
  datatype Backing = Backing(home: nat, slots: seq<Member>)

  /** An index entry, with the group the player is in and the position in its list. */
  datatype Entry<A> = Entry(ptr: Pointer<A>, group: nat, pos: nat)

  datatype Cache<A> = Cache(
    slices: map<nat, Slice<A>>,     // the member slice of every live group
    arrays: map<A, Backing>,        // every array that ever backed a group
    players: map<nat, Entry<A>>     // the index, for every player in a group
  )

  ghost predicate SlicesOk<A>(c: Cache<A>) {
    forall g :: g in c.slices ==>
      && g != 0 && c.slices[g].arr in c.arrays && c.arrays[c.slices[g].arr].home == g
      && c.slices[g].len <= |c.arrays[c.slices[g].arr].slots|
  }

  /** Entry i of the list of group g. */
  ghost function At<A>(c: Cache<A>, g: nat, i: nat): Member
    requires SlicesOk(c) && g in c.slices && i < c.slices[g].len
  {
    c.arrays[c.slices[g].arr].slots[i]
  }

  /** The member list of a group, as `GroupByID` shows it. */
  ghost function List<A>(c: Cache<A>, g: nat): seq<Member>
    requires SlicesOk(c) && g in c.slices
  {
    c.arrays[c.slices[g].arr].slots[..c.slices[g].len]
  }

  /** Every indexed player stands where its entry says. */
  ghost predicate PlayersListed<A>(c: Cache<A>)
    requires SlicesOk(c)
  {
    forall p :: p in c.players ==>
      && c.players[p].group in c.slices && c.players[p].pos < c.slices[c.players[p].group].len
      && At(c, c.players[p].group, c.players[p].pos).guid == p
  }

  /** Every list entry belongs to its group and is indexed. */
  ghost predicate ListsIndexed<A>(c: Cache<A>)
    requires SlicesOk(c)
  {
    forall g, i: nat :: g in c.slices && i < c.slices[g].len ==>
      var m := At(c, g, i);
      m.groupID == g && m.guid in c.players && c.players[m.guid].group == g && c.players[m.guid].pos == i
  }

  /** A pointer may be stale, but it always leads to a slot that belongs to the player's group. */
  ghost predicate PointersOk<A>(c: Cache<A>) {
    forall p :: p in c.players ==> LeadsToGroup(c.arrays, c.players[p].ptr, c.players[p].group)
  }

  ghost predicate LeadsToGroup<A>(arrays: map<A, Backing>, ptr: Pointer<A>, g: nat) {
    && ptr.arr in arrays && arrays[ptr.arr].home == g
    && ptr.idx < |arrays[ptr.arr].slots| && arrays[ptr.arr].slots[ptr.idx].groupID == g
  }

  ghost predicate Ok<A>(c: Cache<A>) {
    SlicesOk(c) && PlayersListed(c) && ListsIndexed(c) && PointersOk(c)
  }

  ghost predicate InGroup<A>(c: Cache<A>, g: nat, p: nat)
    requires SlicesOk(c)
  {
    g in c.slices && exists i: nat :: i < c.slices[g].len && At(c, g, i).guid == p
  }

  /** The pointer of `p` is the very slot that shows `p` in its group's list. */
  ghost predicate Current<A>(c: Cache<A>, p: nat) {
    && p in c.players && c.players[p].group in c.slices
    && c.players[p].ptr == Pointer(c.slices[c.players[p].group].arr, c.players[p].pos)
  }

  ghost predicate AllCurrent<A>(c: Cache<A>) {
    forall p :: p in c.players ==> Current(c, p)
  }

  // ------------------------------------------------------------ reading the index

  /** What `GroupIDByPlayer` reads: the group number in the slot the index points at, or 0. */
  ghost function GroupRead<A>(c: Cache<A>, p: nat): nat
    requires Ok(c)
  {
    if p in c.players then c.arrays[c.players[p].ptr.arr].slots[c.players[p].ptr.idx].groupID else 0
  }

  lemma IndexedMeansInGroup<A>(c: Cache<A>, g: nat, p: nat)
    requires Ok(c)
    ensures InGroup(c, g, p) <==> p in c.players && c.players[p].group == g
  {
  }

  /** However stale the pointers are, the group that is read is g just when p is in the list of g. */
  lemma GroupReadIsExact<A>(c: Cache<A>, p: nat)
    requires Ok(c)
    ensures forall g :: GroupRead(c, p) == g && g != 0 <==> InGroup(c, g, p)
  {
    forall g: nat ensures GroupRead(c, p) == g && g != 0 <==> InGroup(c, g, p) {
      IndexedMeansInGroup(c, g, p);
    }
  }

  // ------------------------------------------------------------ operations

  ghost predicate DistinctPlayers(list: seq<Member>) {
    forall i, j :: 0 <= i < j < |list| ==> list[i].guid != list[j].guid
  }

  /** A list that may become a group: its own group number, and players that are in no group. */
  ghost predicate NewList<A>(c: Cache<A>, g: nat, list: seq<Member>) {
    && DistinctPlayers(list)
    && forall i :: 0 <= i < |list| ==> list[i].groupID == g && list[i].guid !in c.players
  }

  /** Another array backs group g. */
  ghost function Installed<A>(c: Cache<A>, g: nat, arr: A, slots: seq<Member>, len: nat): Cache<A> {
    c.(slices := c.slices[g := Slice(arr, len)], arrays := c.arrays[arr := Backing(g, slots)])
  }

  /** The index after pointing it at every slot of `list`, in order. */
  ghost function IndexedPlayers<A>(players: map<nat, Entry<A>>, g: nat, arr: A, list: seq<Member>): map<nat, Entry<A>>
    decreases |list|
  {
    if list == [] then players
    else
      var n := |list| - 1;
      IndexedPlayers(players, g, arr, list[..n])[list[n].guid := Entry(Pointer(arr, n), g, n)]
  }

  /** `Create`, and one group of `Warmup`: the group is cached and each of its slots is indexed. */
  ghost predicate Created<A>(c: Cache<A>, c': Cache<A>, g: nat, arr: A, slots: seq<Member>, len: nat)
    requires len <= |slots|
  {
    c' == Installed(c, g, arr, slots, len).(players := IndexedPlayers(c.players, g, arr, slots[..len]))
  }

  /** For new players: the index is the old one and, for the players of `list`, the slots of `arr`. */
  ghost predicate Indexed<A>(c: Cache<A>, c': Cache<A>, g: nat, arr: A, list: seq<Member>) {
    && (forall p :: p in c.players ==> p in c'.players && c'.players[p] == c.players[p])
    && (forall i: nat :: i < |list| ==>
          list[i].guid in c'.players && c'.players[list[i].guid] == Entry(Pointer(arr, i), g, i))
    && (forall p :: p in c'.players && p !in c.players ==>
          && c'.players[p].pos < |list| && list[c'.players[p].pos].guid == p
          && c'.players[p] == Entry(Pointer(arr, c'.players[p].pos), g, c'.players[p].pos))
  }

  ghost function Deleted<A>(c: Cache<A>, g: nat): Cache<A> {
    c.(slices := c.slices - {g}, players := map p | p in c.players && c.players[p].group != g :: c.players[p])
  }

  /** The slot a pointer names is overwritten. */
  ghost function Overwritten<A>(arrays: map<A, Backing>, ptr: Pointer<A>, m: Member): map<A, Backing>
    requires ptr.arr in arrays && ptr.idx < |arrays[ptr.arr].slots|
  {
    arrays[ptr.arr := Backing(arrays[ptr.arr].home, arrays[ptr.arr].slots[ptr.idx := m])]
  }

  /** Login and logout: the online flag of whatever slot the index points at. */
  ghost function OnlineSet<A>(c: Cache<A>, p: nat, online: bool): Cache<A>
    requires Ok(c)
  {
    if p !in c.players then c
    else
      var ptr := c.players[p].ptr;
      c.(arrays := Overwritten(c.arrays, ptr, c.arrays[ptr.arr].slots[ptr.idx].(online := online)))
  }

  /** `UpdateMember`: the player's slot is overwritten and the pointer made current. */
  ghost function MemberUpdated<A>(c: Cache<A>, m: Member): Cache<A>
    requires Ok(c)
  {
    if m.guid !in c.players || c.players[m.guid].group != m.groupID then c
    else
      var ptr := Pointer(c.slices[m.groupID].arr, c.players[m.guid].pos);
      c.(arrays := Overwritten(c.arrays, ptr, m), players := c.players[m.guid := c.players[m.guid].(ptr := ptr)])
  }

  ghost predicate HasRoom<A>(c: Cache<A>, g: nat)
    requires SlicesOk(c) && g in c.slices
  {
    c.slices[g].len < |c.arrays[c.slices[g].arr].slots|
  }

  /** `AddMember`: append, in place or in the new array `arr` with `spare` unused slots. */
  ghost function MemberAdded<A>(c: Cache<A>, m: Member, arr: A, spare: seq<Member>): Cache<A>
    requires SlicesOk(c) && m.groupID in c.slices
  {
    var g, s := m.groupID, c.slices[m.groupID];
    var home := if HasRoom(c, g) then s.arr else arr;
    Cache(
      c.slices[g := Slice(home, s.len + 1)],
      if HasRoom(c, g) then Overwritten(c.arrays, Pointer(s.arr, s.len), m)
      else c.arrays[arr := Backing(g, List(c, g) + [m] + spare)],
      c.players[m.guid := Entry(Pointer(home, s.len), g, s.len)])
  }

  /** The array after `append(list[:i], list[i+1:]...)`: shifted in place, the last slot left behind. */
  ghost function ShiftedLeft(slots: seq<Member>, i: nat, len: nat): seq<Member>
    requires i < len <= |slots|
  {
    slots[..i] + slots[i + 1..len] + slots[len - 1..]
  }

  /** A player's entry after entry i of group g is gone. */
  ghost function MovedDown<A>(e: Entry<A>, g: nat, i: nat): Entry<A> {
    if e.group == g && e.pos > i then e.(pos := e.pos - 1) else e
  }

  ghost function MemberRemoved<A>(c: Cache<A>, p: nat): Cache<A>
    requires SlicesOk(c) && PlayersListed(c) && p in c.players
  {
    var g, i := c.players[p].group, c.players[p].pos;
    var s := c.slices[g];
    Cache(
      c.slices[g := Slice(s.arr, s.len - 1)],
      c.arrays[s.arr := Backing(g, ShiftedLeft(c.arrays[s.arr].slots, i, s.len))],
      map q | q in c.players && q != p :: MovedDown(c.players[q], g, i))
  }

  // ------------------------------------------------------------ overwriting one slot

  /** Overwriting a slot with a member of the group the array was made for keeps every pointer good. */
  lemma OverwrittenKeepsPointers<A>(c: Cache<A>, ptr: Pointer<A>, m: Member)
    requires PointersOk(c) && ptr.arr in c.arrays && ptr.idx < |c.arrays[ptr.arr].slots|
    requires m.groupID == c.arrays[ptr.arr].home
    ensures PointersOk(c.(arrays := Overwritten(c.arrays, ptr, m)))
  {
  }

  /** Of all list entries only the one in that slot, if there is one, changes. */
  lemma OverwrittenEntries<A>(c: Cache<A>, c': Cache<A>, ptr: Pointer<A>, m: Member)
    requires SlicesOk(c) && ptr.arr in c.arrays && ptr.idx < |c.arrays[ptr.arr].slots|
    requires c'.slices == c.slices && c'.arrays == Overwritten(c.arrays, ptr, m)
    ensures SlicesOk(c')
    ensures forall g, i: nat :: g in c.slices && i < c.slices[g].len ==>
              At(c', g, i) == if Pointer(c.slices[g].arr, i) == ptr then m else At(c, g, i)
  {
  }

  /** Overwriting slots without changing who stands where keeps the index exact. */
  lemma SamePlayersStayListed<A>(c: Cache<A>, c': Cache<A>)
    requires SlicesOk(c) && PlayersListed(c) && ListsIndexed(c) && SlicesOk(c') && c'.slices == c.slices
    requires forall p :: p in c'.players <==> p in c.players
    requires forall p :: p in c.players ==> c'.players[p].group == c.players[p].group && c'.players[p].pos == c.players[p].pos
    requires forall g, i: nat :: g in c.slices && i < c.slices[g].len ==>
               At(c', g, i).guid == At(c, g, i).guid && At(c', g, i).groupID == At(c, g, i).groupID
    ensures PlayersListed(c') && ListsIndexed(c')
  {
    hide SlicesOk, At;
  }

  /** A login or logout keeps every invariant, wherever the pointer leads. */
  lemma OnlineSetOk<A>(c: Cache<A>, p: nat, online: bool)
    requires Ok(c)
    ensures Ok(OnlineSet(c, p, online))
  {
    if p in c.players {
      var ptr, c' := c.players[p].ptr, OnlineSet(c, p, online);
      var m := c.arrays[ptr.arr].slots[ptr.idx].(online := online);
      OverwrittenKeepsPointers(c, ptr, m);
      OverwrittenEntries(c, c', ptr, m);
      hide Overwritten;
      SamePlayersStayListed(c, c');
    }
  }

  /**
   A login or logout changes at most one list entry, the one in the slot the player's pointer names.
   The player's own entry changes exactly when the pointer is current.
   */
  lemma OnlineSetEffect<A>(c: Cache<A>, p: nat, online: bool)
    requires Ok(c) && p in c.players
    ensures var c' := OnlineSet(c, p, online);
            && Ok(c') && c'.slices == c.slices && c'.players == c.players
            && forall g, i: nat :: g in c.slices && i < c.slices[g].len ==>
                 At(c', g, i) == if Pointer(c.slices[g].arr, i) == c.players[p].ptr
                                 then At(c, g, i).(online := online) else At(c, g, i)
    ensures var e, c' := c.players[p], OnlineSet(c, p, online);
            At(c', e.group, e.pos) == if Current(c, p) then At(c, e.group, e.pos).(online := online) else At(c, e.group, e.pos)
  {
    OnlineSetOk(c, p, online);
    var ptr := c.players[p].ptr;
    OverwrittenEntries(c, OnlineSet(c, p, online), ptr, c.arrays[ptr.arr].slots[ptr.idx].(online := online));
  }

  /** `UpdateMember` replaces exactly the player's entry and repairs the player's pointer. */
  lemma MemberUpdatedEffect<A>(c: Cache<A>, m: Member)
    requires Ok(c)
    ensures var c' := MemberUpdated(c, m);
            && Ok(c') && c'.slices == c.slices
            && (forall g, i: nat :: g in c.slices && i < c.slices[g].len ==>
                  At(c', g, i) == if g == m.groupID && At(c, g, i).guid == m.guid then m else At(c, g, i))
            && (InGroup(c, m.groupID, m.guid) ==> Current(c', m.guid))
            && (forall q :: q in c.players && q != m.guid ==> (Current(c', q) <==> Current(c, q)))
            && (AllCurrent(c) ==> AllCurrent(c'))
  {
    hide SlicesOk, PlayersListed, ListsIndexed, PointersOk, At, InGroup, MemberUpdated, Current, AllCurrent;
    IndexedMeansInGroup(c, m.groupID, m.guid);
    if InGroup(c, m.groupID, m.guid) {
      UpdatedOk(c, m);
      UpdatedCurrent(c, m);
    } else {
      NothingUpdated(c, m);
    }
  }

  lemma NothingUpdated<A>(c: Cache<A>, m: Member)
    requires Ok(c) && !InGroup(c, m.groupID, m.guid)
    ensures MemberUpdated(c, m) == c
    ensures forall g, i: nat :: g in c.slices && i < c.slices[g].len ==> !(g == m.groupID && At(c, g, i).guid == m.guid)
  {
    IndexedMeansInGroup(c, m.groupID, m.guid);
  }

  lemma UpdatedOk<A>(c: Cache<A>, m: Member)
    requires Ok(c) && m.guid in c.players && c.players[m.guid].group == m.groupID
    ensures var c' := MemberUpdated(c, m);
            && Ok(c') && c'.slices == c.slices
            && (forall g, i: nat :: g in c.slices && i < c.slices[g].len ==>
                  At(c', g, i) == if g == m.groupID && At(c, g, i).guid == m.guid then m else At(c, g, i))
  {
    var g, i := m.groupID, c.players[m.guid].pos;
    var ptr := Pointer(c.slices[g].arr, i);
    var c' := MemberUpdated(c, m);
    SlotOfGroup(c, g, i);
    hide SlicesOk, PlayersListed, ListsIndexed, At, Overwritten;
    OverwrittenKeepsPointers(c, ptr, m);
    OverwrittenEntries(c, c', ptr, m);
    UpdatedEntries(c, m, c');
    UpdatedListed(c, m, c');
    UpdatedPointers(c, c.(arrays := c'.arrays), m, ptr);
  }

  lemma SlotOfGroup<A>(c: Cache<A>, g: nat, i: nat)
    requires SlicesOk(c) && g in c.slices && i < c.slices[g].len
    ensures c.slices[g].arr in c.arrays && c.arrays[c.slices[g].arr].home == g && i < |c.arrays[c.slices[g].arr].slots|
  {
  }

  lemma UpdatedListed<A>(c: Cache<A>, m: Member, c': Cache<A>)
    requires SlicesOk(c) && PlayersListed(c) && ListsIndexed(c) && SlicesOk(c') && c'.slices == c.slices
    requires m.guid in c.players && m.guid in c'.players
    requires c'.players == c.players[m.guid := c.players[m.guid].(ptr := c'.players[m.guid].ptr)]
    requires forall g, i: nat :: g in c.slices && i < c.slices[g].len ==>
               At(c', g, i) == if g == m.groupID && At(c, g, i).guid == m.guid then m else At(c, g, i)
    ensures PlayersListed(c') && ListsIndexed(c')
  {
    forall g, i: nat | g in c.slices && i < c.slices[g].len
      ensures At(c', g, i).guid == At(c, g, i).guid && At(c', g, i).groupID == At(c, g, i).groupID
    {
    }
    hide SlicesOk, At, PlayersListed, ListsIndexed;
    SamePlayersStayListed(c, c');
  }

  /** Making one pointer current keeps all pointers leading to their groups. */
  lemma UpdatedPointers<A>(c: Cache<A>, d: Cache<A>, m: Member, ptr: Pointer<A>)
    requires PointersOk(d) && m.guid in d.players && d.players[m.guid].group == m.groupID
    requires ptr.arr in c.arrays && c.arrays[ptr.arr].home == m.groupID && ptr.idx < |c.arrays[ptr.arr].slots|
    requires d.arrays == Overwritten(c.arrays, ptr, m)
    ensures PointersOk(d.(players := d.players[m.guid := d.players[m.guid].(ptr := ptr)]))
  {
    assert LeadsToGroup(d.arrays, ptr, m.groupID);
  }

  lemma UpdatedCurrent<A>(c: Cache<A>, m: Member)
    requires Ok(c) && m.guid in c.players && c.players[m.guid].group == m.groupID
    ensures Current(MemberUpdated(c, m), m.guid)
    ensures forall q :: q in c.players && q != m.guid ==> (Current(MemberUpdated(c, m), q) <==> Current(c, q))
    ensures AllCurrent(c) ==> AllCurrent(MemberUpdated(c, m))
  {
    assert m.groupID in c.slices;
    hide SlicesOk, PlayersListed, ListsIndexed, PointersOk, Overwritten;
  }

  lemma UpdatedEntries<A>(c: Cache<A>, m: Member, c': Cache<A>)
    requires Ok(c) && m.guid in c.players && c.players[m.guid].group == m.groupID && SlicesOk(c') && c'.slices == c.slices
    requires forall g, i: nat :: g in c.slices && i < c.slices[g].len ==>
               At(c', g, i) == if Pointer(c.slices[g].arr, i) == Pointer(c.slices[m.groupID].arr, c.players[m.guid].pos)
                               then m else At(c, g, i)
    ensures forall g, i: nat :: g in c.slices && i < c.slices[g].len ==>
              At(c', g, i) == if g == m.groupID && At(c, g, i).guid == m.guid then m else At(c, g, i)
  {
    hide PointersOk;
  }

  // ------------------------------------------------------------ creating and deleting groups

  lemma ListEntries<A>(c: Cache<A>, c': Cache<A>, g: nat)
    requires SlicesOk(c) && SlicesOk(c') && g in c.slices && g in c'.slices && c'.slices[g].len == c.slices[g].len
    requires forall i: nat :: i < c.slices[g].len ==> At(c', g, i) == At(c, g, i)
    ensures List(c', g) == List(c, g)
  {
    forall i: nat | i < c.slices[g].len ensures List(c', g)[i] == List(c, g)[i] {
      assert At(c', g, i) == At(c, g, i);
    }
  }

  lemma InstalledEntries<A>(c: Cache<A>, c': Cache<A>, g: nat, arr: A, slots: seq<Member>, len: nat)
    requires SlicesOk(c) && g != 0 && arr !in c.arrays && len <= |slots|
    requires c'.slices == c.slices[g := Slice(arr, len)] && c'.arrays == c.arrays[arr := Backing(g, slots)]
    ensures SlicesOk(c')
    ensures forall i: nat :: i < len ==> At(c', g, i) == slots[i]
    ensures forall h, i: nat :: h in c.slices && h != g && i < c.slices[h].len ==> At(c', h, i) == At(c, h, i)
  {
  }

  lemma CreatedListed<A>(c: Cache<A>, c': Cache<A>, g: nat, arr: A, list: seq<Member>)
    requires SlicesOk(c) && PlayersListed(c) && ListsIndexed(c) && NewList(c, g, list) && g !in c.slices
    requires Indexed(c, c', g, arr, list) && SlicesOk(c') && c'.slices == c.slices[g := Slice(arr, |list|)]
    requires forall i: nat :: i < |list| ==> At(c', g, i) == list[i]
    requires forall h, i: nat :: h in c.slices && i < c.slices[h].len ==> At(c', h, i) == At(c, h, i)
    ensures PlayersListed(c') && ListsIndexed(c')
  {
    hide SlicesOk, At;
  }

  ghost predicate Carries(list: seq<Member>, p: nat) {
    exists i :: 0 <= i < |list| && list[i].guid == p
  }

  /** A player of the list has an entry for a slot that carries the player; anyone else keeps the old entry. */
  lemma {:induction false} IndexedPlayerIs<A>(players: map<nat, Entry<A>>, g: nat, arr: A, list: seq<Member>, p: nat)
    ensures var now := IndexedPlayers(players, g, arr, list);
            if Carries(list, p) then
              && p in now && now[p].pos < |list| && list[now[p].pos].guid == p
              && now[p] == Entry(Pointer(arr, now[p].pos), g, now[p].pos)
            else (p in now <==> p in players) && (p in now ==> now[p] == players[p])
    decreases |list|
  {
    if list != [] {
      var n := |list| - 1;
      IndexedPlayerIs(players, g, arr, list[..n], p);
      assert Carries(list, p) <==> Carries(list[..n], p) || list[n].guid == p by {
        if i :| 0 <= i < |list| && list[i].guid == p {
          if i < n { assert list[..n][i].guid == p; }
        }
        if i :| 0 <= i < n && list[..n][i].guid == p {
          assert list[i].guid == p;
        }
      }
      hide Carries;
    }
  }

  lemma IndexedPlayersAre<A>(players: map<nat, Entry<A>>, g: nat, arr: A, list: seq<Member>)
    ensures var now := IndexedPlayers(players, g, arr, list);
            forall p :: if Carries(list, p) then
                          && p in now && now[p].pos < |list| && list[now[p].pos].guid == p
                          && now[p] == Entry(Pointer(arr, now[p].pos), g, now[p].pos)
                        else (p in now <==> p in players) && (p in now ==> now[p] == players[p])
  {
    hide IndexedPlayers, Carries;
    forall p: nat {
      IndexedPlayerIs(players, g, arr, list, p);
    }
  }

  lemma CreatedIndexes<A>(c: Cache<A>, c': Cache<A>, g: nat, arr: A, list: seq<Member>)
    requires NewList(c, g, list) && c'.players == IndexedPlayers(c.players, g, arr, list)
    ensures Indexed(c, c', g, arr, list)
  {
    hide IndexedPlayers;
    IndexedPlayersAre(c.players, g, arr, list);
    assert forall i: nat :: i < |list| ==> Carries(list, list[i].guid);
  }

  lemma CreatedPointers<A>(c: Cache<A>, c': Cache<A>, g: nat, arr: A, slots: seq<Member>, len: nat)
    requires PointersOk(c) && arr !in c.arrays && len <= |slots| && NewList(c, g, slots[..len])
    requires Indexed(c, c', g, arr, slots[..len]) && c'.arrays == c.arrays[arr := Backing(g, slots)]
    ensures PointersOk(c')
  {
    forall p | p in c'.players && p !in c.players ensures LeadsToGroup(c'.arrays, c'.players[p].ptr, g) {
      assert slots[..len][c'.players[p].pos].groupID == g;
    }
  }

  lemma NewListEntries<A>(c': Cache<A>, g: nat, arr: A, slots: seq<Member>, len: nat)
    requires SlicesOk(c') && g in c'.slices && c'.slices[g] == Slice(arr, len) && c'.arrays[arr].slots == slots
    ensures List(c', g) == slots[..len]
  {
  }

  lemma CreatedCurrent<A>(c: Cache<A>, c': Cache<A>, g: nat, arr: A, slots: seq<Member>, len: nat)
    requires SlicesOk(c) && PlayersListed(c) && g !in c.slices && len <= |slots|
    requires Indexed(c, c', g, arr, slots[..len]) && c'.slices == c.slices[g := Slice(arr, len)]
    ensures forall p :: p in c'.players && p !in c.players ==> Current(c', p)
    ensures AllCurrent(c) ==> AllCurrent(c')
  {
    hide SlicesOk, PlayersListed, At;
    PlayersHaveGroups(c);
  }

  lemma PlayersHaveGroups<A>(c: Cache<A>)
    requires SlicesOk(c) && PlayersListed(c)
    ensures forall p :: p in c.players ==> c.players[p].group in c.slices
  {
  }

  /** A new group is cached with every pointer current; the other groups are untouched. */
  lemma CreatedEffect<A>(c: Cache<A>, c': Cache<A>, g: nat, arr: A, slots: seq<Member>, len: nat)
    requires Ok(c) && g != 0 && g !in c.slices && arr !in c.arrays && len <= |slots| && NewList(c, g, slots[..len])
    requires Created(c, c', g, arr, slots, len)
    ensures Ok(c') && List(c', g) == slots[..len]
    ensures forall h :: h in c.slices ==> List(c', h) == List(c, h)
    ensures forall p :: p in c'.players && p !in c.players ==> Current(c', p)
    ensures AllCurrent(c) ==> AllCurrent(c')
  {
    hide SlicesOk, PlayersListed, ListsIndexed, PointersOk, At, AllCurrent, Current, Indexed, List, NewList, IndexedPlayers;
    CreatedIndexes(c, c', g, arr, slots[..len]);
    InstalledEntries(c, c', g, arr, slots, len);
    CreatedPointers(c, c', g, arr, slots, len);
    CreatedCurrent(c, c', g, arr, slots, len);
    NewListEntries(c', g, arr, slots, len);
    CreatedListed(c, c', g, arr, slots[..len]);
    forall h | h in c.slices ensures List(c', h) == List(c, h) {
      ListEntries(c, c', h);
    }
  }

  lemma DeletedListed<A>(c: Cache<A>, g: nat)
    requires Ok(c) && g in c.slices
    ensures SlicesOk(Deleted(c, g)) && PlayersListed(Deleted(c, g)) && ListsIndexed(Deleted(c, g))
    ensures forall h, i: nat :: h in c.slices && h != g && i < c.slices[h].len ==> At(Deleted(c, g), h, i) == At(c, h, i)
  {
    hide PointersOk;
    var c' := Deleted(c, g);
    assert SlicesOk(c');
    forall h, i: nat | h in c'.slices && i < c'.slices[h].len
      ensures var m := At(c', h, i);
              m.groupID == h && m.guid in c'.players && c'.players[m.guid].group == h && c'.players[m.guid].pos == i
    {
      assert At(c', h, i) == At(c, h, i);
    }
  }

  lemma DeletedEffect<A>(c: Cache<A>, g: nat)
    requires Ok(c) && g in c.slices
    ensures var c' := Deleted(c, g);
            && Ok(c')
            && (forall h :: h in c'.slices <==> h in c.slices && h != g)
            && (forall h :: h in c'.slices ==> List(c', h) == List(c, h))
            && (forall p :: p in c'.players <==> p in c.players && !InGroup(c, g, p))
            && (AllCurrent(c) ==> AllCurrent(c'))
  {
    DeletedListed(c, g);
    forall h | h in Deleted(c, g).slices ensures List(Deleted(c, g), h) == List(c, h) {
      ListEntries(c, Deleted(c, g), h);
    }
    forall p ensures p in Deleted(c, g).players <==> p in c.players && !InGroup(c, g, p) {
      IndexedMeansInGroup(c, g, p);
    }
  }

  // ------------------------------------------------------------ adding a member

  /** One more entry at the end of one list, and one more player placed there. */
  lemma AppendedListed<A>(c: Cache<A>, c': Cache<A>, m: Member)
    requires SlicesOk(c) && PlayersListed(c) && ListsIndexed(c) && m.groupID in c.slices && m.guid !in c.players
    requires SlicesOk(c') && (forall h :: h in c'.slices <==> h in c.slices)
    requires forall h :: h in c.slices ==> c'.slices[h].len == c.slices[h].len + (if h == m.groupID then 1 else 0)
    requires forall h, i: nat :: h in c.slices && i < c.slices[h].len ==> At(c', h, i) == At(c, h, i)
    requires At(c', m.groupID, c.slices[m.groupID].len) == m
    requires forall p :: p in c'.players <==> p in c.players || p == m.guid
    requires forall p :: p in c.players ==> c'.players[p] == c.players[p]
    requires c'.players[m.guid].group == m.groupID && c'.players[m.guid].pos == c.slices[m.groupID].len
    ensures PlayersListed(c') && ListsIndexed(c')
  {
    hide SlicesOk, At;
  }

  lemma AppendedEntries<A>(c: Cache<A>, m: Member, arr: A, spare: seq<Member>)
    requires SlicesOk(c) && m.groupID in c.slices && (HasRoom(c, m.groupID) || arr !in c.arrays)
    ensures var c' := MemberAdded(c, m, arr, spare);
            && SlicesOk(c')
            && (forall h, i: nat :: h in c.slices && i < c.slices[h].len ==> At(c', h, i) == At(c, h, i))
            && At(c', m.groupID, c.slices[m.groupID].len) == m
  {
    var g, s := m.groupID, c.slices[m.groupID];
    if !HasRoom(c, g) {
      var slots := List(c, g) + [m] + spare;
      assert slots[s.len] == m && forall i: nat :: i < s.len ==> slots[i] == At(c, g, i);
    }
  }

  lemma AppendedPointers<A>(c: Cache<A>, m: Member, arr: A, spare: seq<Member>)
    requires SlicesOk(c) && PointersOk(c) && m.groupID in c.slices && (HasRoom(c, m.groupID) || arr !in c.arrays)
    ensures PointersOk(MemberAdded(c, m, arr, spare))
  {
    var g, s, c' := m.groupID, c.slices[m.groupID], MemberAdded(c, m, arr, spare);
    if HasRoom(c, g) {
      OverwrittenKeepsPointers(c, Pointer(s.arr, s.len), m);
    } else {
      assert (List(c, g) + [m] + spare)[s.len] == m;
    }
    assert LeadsToGroup(c'.arrays, c'.players[m.guid].ptr, g);
    hide SlicesOk;
  }

  lemma AppendedCurrent<A>(c: Cache<A>, m: Member, arr: A, spare: seq<Member>, q: nat)
    requires Ok(c) && m.groupID in c.slices && m.guid !in c.players && q in c.players
    requires HasRoom(c, m.groupID) || arr !in c.arrays
    ensures Current(MemberAdded(c, m, arr, spare), q)
            <==> Current(c, q) && (HasRoom(c, m.groupID) || c.players[q].group != m.groupID)
  {
    assert LeadsToGroup(c.arrays, c.players[q].ptr, c.players[q].group);
    hide SlicesOk, ListsIndexed, PointersOk, Overwritten, List;
  }

  /**
   `AddMember` appends to the list.  A pointer that was current stays so exactly when it belongs to another
   group or the slice had room; no stale pointer becomes current.
   */
  lemma MemberAddedEffect<A>(c: Cache<A>, m: Member, arr: A, spare: seq<Member>)
    requires Ok(c) && m.groupID in c.slices && m.guid !in c.players && (HasRoom(c, m.groupID) || arr !in c.arrays)
    ensures var g, c' := m.groupID, MemberAdded(c, m, arr, spare);
            && Ok(c') && List(c', g) == List(c, g) + [m]
            && (forall h :: h in c.slices && h != g ==> List(c', h) == List(c, h))
            && Current(c', m.guid)
            && (forall q :: q in c.players ==> (Current(c', q) <==> Current(c, q) && (HasRoom(c, g) || c.players[q].group != g)))
  {
    hide SlicesOk, PlayersListed, ListsIndexed, PointersOk, HasRoom, At, List, Current, LeadsToGroup;
    var g, c' := m.groupID, MemberAdded(c, m, arr, spare);
    AppendedEntries(c, m, arr, spare);
    AppendedPointers(c, m, arr, spare);
    AppendedListed(c, c', m);
    forall q | q in c.players ensures Current(c', q) <==> Current(c, q) && (HasRoom(c, g) || c.players[q].group != g) {
      AppendedCurrent(c, m, arr, spare, q);
    }
    NewcomerCurrent(c, m, arr, spare);
    ListAppended(c, c', g, m);
    forall h | h in c.slices && h != g ensures List(c', h) == List(c, h) {
      ListEntries(c, c', h);
    }
  }

  lemma NewcomerCurrent<A>(c: Cache<A>, m: Member, arr: A, spare: seq<Member>)
    requires SlicesOk(c) && m.groupID in c.slices
    ensures Current(MemberAdded(c, m, arr, spare), m.guid)
  {
  }

  lemma ListAppended<A>(c: Cache<A>, c': Cache<A>, g: nat, m: Member)
    requires SlicesOk(c) && SlicesOk(c') && g in c.slices && g in c'.slices && c'.slices[g].len == c.slices[g].len + 1
    requires forall i: nat :: i < c.slices[g].len ==> At(c', g, i) == At(c, g, i)
    requires At(c', g, c.slices[g].len) == m
    ensures List(c', g) == List(c, g) + [m]
  {
    forall i: nat | i < c.slices[g].len ensures List(c', g)[i] == List(c, g)[i] {
      assert At(c', g, i) == At(c, g, i);
    }
  }

  /** After an addition all pointers are current exactly if they were and nobody was left behind. */
  lemma MemberAddedAllCurrent<A>(c: Cache<A>, m: Member, arr: A, spare: seq<Member>)
    requires Ok(c) && AllCurrent(c) && m.groupID in c.slices && m.guid !in c.players
    requires HasRoom(c, m.groupID) || arr !in c.arrays
    ensures AllCurrent(MemberAdded(c, m, arr, spare)) <==> HasRoom(c, m.groupID) || c.slices[m.groupID].len == 0
  {
    MemberAddedEffect(c, m, arr, spare);
    var g, c' := m.groupID, MemberAdded(c, m, arr, spare);
    if c.slices[g].len > 0 {
      var q := At(c, g, 0).guid;
      assert q in c.players && c.players[q].group == g && Current(c, q);
    } else {
      assert forall q :: q in c.players ==> c.players[q].group != g;
    }
    hide Ok, SlicesOk, PlayersListed, ListsIndexed, PointersOk, Current;
    assert forall q :: q in c'.players <==> q in c.players || q == m.guid;
  }

  // ------------------------------------------------------------ players that are already in a group

  /** The group number behind the index, wherever it points. */
  ghost function ReadAt<A>(c: Cache<A>, p: nat): nat {
    if p in c.players && c.players[p].ptr.arr in c.arrays && c.players[p].ptr.idx < |c.arrays[c.players[p].ptr.arr].slots|
    then c.arrays[c.players[p].ptr.arr].slots[c.players[p].ptr.idx].groupID else 0
  }

  ghost predicate ReadsExactly<A>(c: Cache<A>)
    requires SlicesOk(c)
  {
    forall p, g :: ReadAt(c, p) == g && g != 0 <==> InGroup(c, g, p)
  }

  /** With good pointers the group that is read is the group of the entry. */
  lemma ReadsEntry<A>(c: Cache<A>, p: nat)
    requires PointersOk(c)
    ensures ReadAt(c, p) == if p in c.players then c.players[p].group else 0
  {
  }

  /**
   Nothing stops `AddMember` from appending a player who is in a group already; group lookup stays exact
   exactly when that is no other group.
   */
  lemma AddedReadsExactly<A>(c: Cache<A>, m: Member, arr: A, spare: seq<Member>)
    requires Ok(c) && m.groupID in c.slices && (HasRoom(c, m.groupID) || arr !in c.arrays)
    ensures SlicesOk(MemberAdded(c, m, arr, spare))
    ensures ReadsExactly(MemberAdded(c, m, arr, spare))
            <==> (m.guid in c.players ==> c.players[m.guid].group == m.groupID)
  {
    var c' := MemberAdded(c, m, arr, spare);
    AppendedEntries(c, m, arr, spare);
    AppendedPointers(c, m, arr, spare);
    AppendedMembers(c, c', m);
    assert c'.players == c.players[m.guid := c'.players[m.guid]] && c'.players[m.guid].group == m.groupID != 0;
    hide SlicesOk, PlayersListed, ListsIndexed, PointersOk, MemberAdded, InGroup, ReadAt;
    ReadingAppended(c, c', m);
  }

  lemma ReadingAppended<A>(c: Cache<A>, c': Cache<A>, m: Member)
    requires Ok(c) && SlicesOk(c') && PointersOk(c') && m.groupID != 0 && m.guid in c'.players
    requires c'.players == c.players[m.guid := c'.players[m.guid]] && c'.players[m.guid].group == m.groupID
    requires forall p, g :: InGroup(c', g, p) <==> InGroup(c, g, p) || (g == m.groupID && p == m.guid)
    ensures ReadsExactly(c') <==> (m.guid in c.players ==> c.players[m.guid].group == m.groupID)
  {
    hide SlicesOk, PlayersListed, ListsIndexed, PointersOk, InGroup, ReadAt;
    forall p: nat ensures ReadAt(c', p) == if p in c'.players then c'.players[p].group else 0 {
      ReadsEntry(c', p);
    }
    forall p: nat, g: nat ensures InGroup(c, g, p) <==> p in c.players && c.players[p].group == g {
      IndexedMeansInGroup(c, g, p);
    }
    GroupsNonZero(c);
    if m.guid in c.players && c.players[m.guid].group != m.groupID {
      assert InGroup(c', c.players[m.guid].group, m.guid) && ReadAt(c', m.guid) == m.groupID;
    }
  }

  lemma GroupsNonZero<A>(c: Cache<A>)
    requires Ok(c)
    ensures forall p :: p in c.players ==> c.players[p].group != 0
  {
  }

  /** Who is in which group after one more list entry. */
  lemma AppendedMembers<A>(c: Cache<A>, c': Cache<A>, m: Member)
    requires SlicesOk(c) && SlicesOk(c') && m.groupID in c.slices
    requires (forall h :: h in c'.slices <==> h in c.slices)
    requires forall h :: h in c.slices ==> c'.slices[h].len == c.slices[h].len + (if h == m.groupID then 1 else 0)
    requires forall h, i: nat :: h in c.slices && i < c.slices[h].len ==> At(c', h, i) == At(c, h, i)
    requires At(c', m.groupID, c.slices[m.groupID].len) == m
    ensures forall p, g :: InGroup(c', g, p) <==> InGroup(c, g, p) || (g == m.groupID && p == m.guid)
  {
    hide SlicesOk, At;
    forall p, g ensures InGroup(c', g, p) <==> InGroup(c, g, p) || (g == m.groupID && p == m.guid) {
      if InGroup(c', g, p) {
        var i: nat :| i < c'.slices[g].len && At(c', g, i).guid == p;
        if i < c.slices[g].len { assert At(c, g, i).guid == p; }
      }
      if InGroup(c, g, p) {
        var i: nat :| i < c.slices[g].len && At(c, g, i).guid == p;
        assert At(c', g, i).guid == p;
      }
    }
  }

  /** Likewise for `Create`: lookup stays exact exactly when no player of the new group is in a group already. */
  lemma CreatedReadsExactly<A>(c: Cache<A>, c': Cache<A>, g: nat, arr: A, slots: seq<Member>, len: nat)
    requires Ok(c) && g != 0 && g !in c.slices && arr !in c.arrays && len <= |slots|
    requires Created(c, c', g, arr, slots, len) && forall i :: 0 <= i < len ==> slots[i].groupID == g
    ensures SlicesOk(c')
    ensures ReadsExactly(c') <==> forall i :: 0 <= i < len ==> slots[i].guid !in c.players
  {
    hide IndexedPlayers, PlayersListed, ListsIndexed, SlicesOk, PointersOk, InGroup, ReadAt;
    InstalledEntries(c, c', g, arr, slots, len);
    IndexedPlayersAre(c.players, g, arr, slots[..len]);
    assert forall i :: 0 <= i < len ==> slots[..len][i] == slots[i] && Carries(slots[..len], slots[i].guid);
    InstalledPointers(c, c', g, arr, slots, len);
    InstalledMembers(c, c', g, slots, len);
    PlayersHaveGroups(c);
    GroupsNonZero(c);
    ReadingInstalled(c, c', g, slots, len);
  }

  lemma ReadingInstalled<A>(c: Cache<A>, c': Cache<A>, g: nat, slots: seq<Member>, len: nat)
    requires Ok(c) && SlicesOk(c') && PointersOk(c') && g != 0 && len <= |slots|
    requires forall p :: p in c.players ==> c.players[p].group != 0 && c.players[p].group != g
    requires forall p :: if Carries(slots[..len], p) then p in c'.players && c'.players[p].group == g
                         else (p in c'.players <==> p in c.players) && (p in c.players ==> c'.players[p] == c.players[p])
    requires forall p, h :: InGroup(c', h, p) <==>
               InGroup(c, h, p) || (h == g && exists i :: 0 <= i < len && slots[i].guid == p)
    ensures ReadsExactly(c') <==> forall i :: 0 <= i < len ==> slots[i].guid !in c.players
  {
    hide SlicesOk, PlayersListed, ListsIndexed, PointersOk, InGroup, ReadAt;
    assert forall i :: 0 <= i < len ==> slots[..len][i] == slots[i] && Carries(slots[..len], slots[i].guid);
    forall p: nat ensures ReadAt(c', p) == if p in c'.players then c'.players[p].group else 0 {
      ReadsEntry(c', p);
    }
    forall p: nat, h: nat ensures InGroup(c, h, p) <==> p in c.players && c.players[p].group == h {
      IndexedMeansInGroup(c, h, p);
    }
    if i :| 0 <= i < len && slots[i].guid in c.players {
      var p := slots[i].guid;
      assert InGroup(c', c.players[p].group, p) && ReadAt(c', p) == g;
    }
  }

  lemma InstalledPointers<A>(c: Cache<A>, c': Cache<A>, g: nat, arr: A, slots: seq<Member>, len: nat)
    requires PointersOk(c) && arr !in c.arrays && len <= |slots| && c'.arrays == c.arrays[arr := Backing(g, slots)]
    requires forall i :: 0 <= i < len ==> slots[i].groupID == g
    requires forall p :: p in c'.players ==>
               || (p in c.players && c'.players[p] == c.players[p])
               || (c'.players[p].pos < len && c'.players[p] == Entry(Pointer(arr, c'.players[p].pos), g, c'.players[p].pos))
    ensures PointersOk(c')
  {
  }

  lemma InstalledMembers<A>(c: Cache<A>, c': Cache<A>, g: nat, slots: seq<Member>, len: nat)
    requires SlicesOk(c) && SlicesOk(c') && g !in c.slices && len <= |slots|
    requires g in c'.slices && c'.slices == c.slices[g := c'.slices[g]] && c'.slices[g].len == len
    requires forall i: nat :: i < len ==> At(c', g, i) == slots[i]
    requires forall h, i: nat :: h in c.slices && h != g && i < c.slices[h].len ==> At(c', h, i) == At(c, h, i)
    ensures forall p, h :: InGroup(c', h, p) <==>
              InGroup(c, h, p) || (h == g && exists i :: 0 <= i < len && slots[i].guid == p)
  {
    hide SlicesOk, At;
    forall p, h ensures InGroup(c', h, p) <==>
              InGroup(c, h, p) || (h == g && exists i :: 0 <= i < len && slots[i].guid == p)
    {
      if InGroup(c', h, p) {
        var i: nat :| i < c'.slices[h].len && At(c', h, i).guid == p;
        if h != g { assert At(c, h, i).guid == p; }
      }
      if InGroup(c, h, p) {
        var i: nat :| i < c.slices[h].len && At(c, h, i).guid == p;
        assert At(c', h, i).guid == p;
      }
      if h == g && exists i :: 0 <= i < len && slots[i].guid == p {
        var i: nat :| 0 <= i < len && slots[i].guid == p;
        assert At(c', g, i).guid == p;
      }
    }
  }

  // ------------------------------------------------------------ removing a member

  lemma ShiftedSlots(slots: seq<Member>, i: nat, len: nat)
    requires i < len <= |slots|
    ensures |ShiftedLeft(slots, i, len)| == |slots|
    ensures forall j: nat :: j < |slots| ==> ShiftedLeft(slots, i, len)[j] == slots[if i <= j < len - 1 then j + 1 else j]
  {
  }

  /** The list of g lost its entry i, the later entries moved down by one, other lists are the same. */
  ghost predicate EntryGone<A>(c: Cache<A>, c': Cache<A>, g: nat, i: nat)
    requires SlicesOk(c) && SlicesOk(c') && g in c.slices && i < c.slices[g].len
  {
    && (forall h :: h in c'.slices <==> h in c.slices) && c'.slices[g].len == c.slices[g].len - 1
    && (forall h :: h in c.slices && h != g ==> c'.slices[h].len == c.slices[h].len)
    && (forall h, j: nat :: h in c.slices && h != g && j < c.slices[h].len ==> At(c', h, j) == At(c, h, j))
    && (forall j: nat :: j < i ==> At(c', g, j) == At(c, g, j))
    && (forall j: nat :: i <= j < c.slices[g].len - 1 ==> At(c', g, j) == At(c, g, j + 1))
  }

  lemma RemovedEntries<A>(c: Cache<A>, p: nat)
    requires Ok(c) && p in c.players
    ensures SlicesOk(MemberRemoved(c, p)) && EntryGone(c, MemberRemoved(c, p), c.players[p].group, c.players[p].pos)
  {
    var g, i := c.players[p].group, c.players[p].pos;
    var s := c.slices[g];
    ShiftedSlots(c.arrays[s.arr].slots, i, s.len);
    hide ShiftedLeft, PointersOk, ListsIndexed;
  }

  lemma RemovedListed<A>(c: Cache<A>, c': Cache<A>, p: nat)
    requires SlicesOk(c) && PlayersListed(c) && ListsIndexed(c) && p in c.players && SlicesOk(c')
    requires EntryGone(c, c', c.players[p].group, c.players[p].pos)
    requires forall q :: q in c'.players <==> q in c.players && q != p
    requires forall q :: q in c'.players ==> c'.players[q] == MovedDown(c.players[q], c.players[p].group, c.players[p].pos)
    ensures PlayersListed(c') && ListsIndexed(c')
  {
    hide SlicesOk, At, PlayersListed, ListsIndexed, EntryGone, MovedDown;
    RemovedStand(c, c', p);
    RemovedIndexed(c, c', p);
  }

  lemma RemovedStand<A>(c: Cache<A>, c': Cache<A>, p: nat)
    requires SlicesOk(c) && PlayersListed(c) && ListsIndexed(c) && p in c.players && SlicesOk(c')
    requires EntryGone(c, c', c.players[p].group, c.players[p].pos)
    requires forall q :: q in c'.players <==> q in c.players && q != p
    requires forall q :: q in c'.players ==> c'.players[q] == MovedDown(c.players[q], c.players[p].group, c.players[p].pos)
    ensures PlayersListed(c')
  {
    hide SlicesOk, At, ListsIndexed;
    var g, i := c.players[p].group, c.players[p].pos;
    assert At(c, g, i).guid == p;
    forall q | q in c'.players
      ensures c'.players[q].group in c'.slices && c'.players[q].pos < c'.slices[c'.players[q].group].len
      ensures At(c', c'.players[q].group, c'.players[q].pos).guid == q
    {
      var e := c.players[q];
      assert At(c, e.group, e.pos).guid == q;
    }
  }

  lemma RemovedIndexed<A>(c: Cache<A>, c': Cache<A>, p: nat)
    requires SlicesOk(c) && PlayersListed(c) && ListsIndexed(c) && p in c.players && SlicesOk(c')
    requires EntryGone(c, c', c.players[p].group, c.players[p].pos)
    requires forall q :: q in c'.players <==> q in c.players && q != p
    requires forall q :: q in c'.players ==> c'.players[q] == MovedDown(c.players[q], c.players[p].group, c.players[p].pos)
    ensures ListsIndexed(c')
  {
    var g, i := c.players[p].group, c.players[p].pos;
    assert g in c.slices && i < c.slices[g].len;
    hide SlicesOk, At, PlayersListed;
    forall h, j: nat | h in c'.slices && j < c'.slices[h].len
      ensures var m := At(c', h, j);
              m.groupID == h && m.guid in c'.players && c'.players[m.guid].group == h && c'.players[m.guid].pos == j
    {
      var k := if h == g && j >= i then j + 1 else j;
      assert At(c', h, j) == At(c, h, k);
    }
  }

  lemma RemovedPointers<A>(c: Cache<A>, p: nat)
    requires Ok(c) && p in c.players
    ensures PointersOk(MemberRemoved(c, p))
  {
    var g, i := c.players[p].group, c.players[p].pos;
    var s := c.slices[g];
    var slots := c.arrays[s.arr].slots;
    assert forall j: nat :: j < s.len ==> slots[j] == At(c, g, j) && slots[j].groupID == g;
    ShiftedSlots(slots, i, s.len);
    hide ShiftedLeft, PlayersListed, ListsIndexed;
  }

  /**
   `RemoveMember` takes the player out of the list and keeps the order of the others.  If every
   pointer was current, every pointer still is exactly when the removed player was last.
   */
  lemma MemberRemovedEffect<A>(c: Cache<A>, p: nat)
    requires Ok(c) && p in c.players
    ensures var g, i, c' := c.players[p].group, c.players[p].pos, MemberRemoved(c, p);
            && Ok(c') && List(c', g) == List(c, g)[..i] + List(c, g)[i + 1..]
            && (forall h :: h in c.slices && h != g ==> List(c', h) == List(c, h))
            && (AllCurrent(c) ==> (AllCurrent(c') <==> i == c.slices[g].len - 1))
  {
    var g, i, c' := c.players[p].group, c.players[p].pos, MemberRemoved(c, p);
    RemovedEntries(c, p);
    RemovedPointers(c, p);
    RemovedListed(c, c', p);
    RemovedCurrent(c, p);
    ListWithoutEntry(c, c', g, i);
    hide SlicesOk, PlayersListed, ListsIndexed, PointersOk, AllCurrent;
    forall h | h in c.slices && h != g ensures List(c', h) == List(c, h) {
      ListEntries(c, c', h);
    }
  }

  lemma RemovedCurrent<A>(c: Cache<A>, p: nat)
    requires Ok(c) && p in c.players
    ensures AllCurrent(c) ==>
              (AllCurrent(MemberRemoved(c, p)) <==> c.players[p].pos == c.slices[c.players[p].group].len - 1)
  {
    var g, i, c' := c.players[p].group, c.players[p].pos, MemberRemoved(c, p);
    if AllCurrent(c) {
      if i < c.slices[g].len - 1 {
        var q := At(c, g, i + 1).guid;
        assert q in c.players && c.players[q].pos == i + 1 && q in c'.players && !Current(c', q);
      } else {
        hide PointersOk, ListsIndexed, SlicesOk;
        forall q | q in c'.players ensures Current(c', q) {
          assert Current(c, q);
        }
      }
    }
  }

  lemma ListWithoutEntry<A>(c: Cache<A>, c': Cache<A>, g: nat, i: nat)
    requires SlicesOk(c) && SlicesOk(c') && g in c.slices && i < c.slices[g].len && EntryGone(c, c', g, i)
    ensures List(c', g) == List(c, g)[..i] + List(c, g)[i + 1..]
  {
    forall j: nat | j < c.slices[g].len - 1
      ensures List(c', g)[j] == (List(c, g)[..i] + List(c, g)[i + 1..])[j]
    {
      assert At(c', g, j) == At(c, g, if j < i then j else j + 1);
    }
  }

  // ------------------------------------------------------------ whole runs

  datatype Op<A> =
    | Clear                                                         // the start of `Warmup`
    | Create(g: nat, arr: A, slots: seq<Member>, len: nat)          // `Create`, or one group of `Warmup`
    | Delete(g: nat)
    | Update(m: Member)
    | SetOnline(p: nat, online: bool)
    | Add(m: Member, arr: A, spare: seq<Member>)
    | Remove(p: nat)

  /** `Warmup` first forgets the groups and the index; arrays that were handed out live on. */
  ghost function Cleared<A>(c: Cache<A>): Cache<A> {
    c.(slices := map[], players := map[])
  }

  /** One operation, with its target present and a player in at most one group. */
  ghost predicate Step<A>(c: Cache<A>, op: Op<A>, c': Cache<A>)
    requires Ok(c)
  {
    match op
    case Clear => c' == Cleared(c)
    case Create(g, arr, slots, len) =>
      && g != 0 && g !in c.slices && arr !in c.arrays && len <= |slots| && NewList(c, g, slots[..len])
      && Created(c, c', g, arr, slots, len)
    case Delete(g) => g in c.slices && c' == Deleted(c, g)
    case Update(m) => c' == MemberUpdated(c, m)
    case SetOnline(p, online) => c' == OnlineSet(c, p, online)
    case Add(m, arr, spare) =>
      m.groupID in c.slices && m.guid !in c.players && arr !in c.arrays && c' == MemberAdded(c, m, arr, spare)
    case Remove(p) => p in c.players && c' == MemberRemoved(c, p)
  }

  /** Additions that find spare capacity or an empty list, and removals of the last member only. */
  ghost predicate Still<A>(c: Cache<A>, op: Op<A>)
    requires Ok(c)
  {
    match op
    case Add(m, arr, spare) => m.groupID in c.slices ==> HasRoom(c, m.groupID) || c.slices[m.groupID].len == 0
    case Remove(p) => p in c.players ==> c.players[p].pos == c.slices[c.players[p].group].len - 1
    case _ => true
  }

  lemma StepKeepsOk<A>(c: Cache<A>, op: Op<A>, c': Cache<A>)
    requires Ok(c) && Step(c, op, c')
    ensures Ok(c')
  {
    hide OnlineSet, MemberUpdated, MemberAdded, MemberRemoved, Deleted;
    match op {
      case Clear =>
      case Create(g, arr, slots, len) => CreatedEffect(c, c', g, arr, slots, len);
      case Delete(g) => DeletedEffect(c, g);
      case Update(m) => MemberUpdatedEffect(c, m);
      case SetOnline(p, online) => OnlineSetOk(c, p, online);
      case Add(m, arr, spare) => MemberAddedEffect(c, m, arr, spare);
      case Remove(p) => MemberRemovedEffect(c, p);
    }
  }

  /** When every pointer is current, an operation keeps it so exactly if nothing is reallocated or shifted. */
  lemma StepKeepsCurrentExactly<A>(c: Cache<A>, op: Op<A>, c': Cache<A>)
    requires Ok(c) && AllCurrent(c) && Step(c, op, c')
    ensures AllCurrent(c') <==> Still(c, op)
  {
    hide Ok, OnlineSet, MemberUpdated, MemberAdded, MemberRemoved, Deleted;
    match op {
      case Clear =>
      case Create(g, arr, slots, len) => CreatedEffect(c, c', g, arr, slots, len);
      case Delete(g) => DeletedEffect(c, g);
      case Update(m) => MemberUpdatedEffect(c, m);
      case SetOnline(p, online) => OnlineKeepsCurrent(c, p, online);
      case Add(m, arr, spare) => MemberAddedAllCurrent(c, m, arr, spare);
      case Remove(p) => MemberRemovedEffect(c, p);
    }
  }

  lemma OnlineKeepsCurrent<A>(c: Cache<A>, p: nat, online: bool)
    requires Ok(c) && AllCurrent(c)
    ensures AllCurrent(OnlineSet(c, p, online))
  {
  }

  /**
   A run from an empty cache: op[i] leads from c[i] to c[i + 1].  A step is defined where the invariant
   holds; that it holds in every state is what `RunStates` proves.
   */
  ghost predicate IsRun<A>(c: seq<Cache<A>>, op: seq<Op<A>>) {
    && |c| == |op| + 1 && c[0].slices == map[] && c[0].players == map[]
    && forall i :: 0 <= i < |op| && Ok(c[i]) ==> Step(c[i], op[i], c[i + 1])
  }

  lemma EmptyOk<A>(c: Cache<A>)
    requires c.slices == map[] && c.players == map[]
    ensures Ok(c) && AllCurrent(c)
  {
  }

  lemma {:induction false} RunStates<A>(c: seq<Cache<A>>, op: seq<Op<A>>, k: nat)
    requires IsRun(c, op) && k < |c|
    ensures Ok(c[k]) && (k < |op| ==> Step(c[k], op[k], c[k + 1]))
  {
    hide Ok, Step;
    if k == 0 {
      EmptyOk(c[0]);
    } else {
      RunStates(c, op, k - 1);
      StepKeepsOk(c[k - 1], op[k - 1], c[k]);
    }
  }

  /** In every state of every run the group read for a player is the group whose list holds the player. */
  lemma EveryRunReadsExactly<A>(c: seq<Cache<A>>, op: seq<Op<A>>, k: nat, p: nat)
    requires IsRun(c, op) && k < |c|
    ensures Ok(c[k]) && forall g :: GroupRead(c[k], p) == g && g != 0 <==> InGroup(c[k], g, p)
  {
    RunStates(c, op, k);
    GroupReadIsExact(c[k], p);
  }

  /** Every step of the run before state k was a still one. */
  ghost predicate StillUntil<A>(c: seq<Cache<A>>, op: seq<Op<A>>, k: nat)
    requires |c| == |op| + 1 && k <= |op|
  {
    forall j :: 0 <= j < k && Ok(c[j]) ==> Still(c[j], op[j])
  }

  /** While nothing is reallocated or shifted each indexed pointer is the player's own list slot. */
  lemma {:induction false} StillRunsStayCurrent<A>(c: seq<Cache<A>>, op: seq<Op<A>>, k: nat)
    requires IsRun(c, op) && k <= |op| && StillUntil(c, op, k)
    ensures Ok(c[k]) && AllCurrent(c[k])
    decreases k
  {
    hide Step, Still, Ok, AllCurrent;
    RunStates(c, op, k);
    if k == 0 {
      EmptyOk(c[0]);
    } else {
      StillRunsStayCurrent(c, op, k - 1);
      RunStates(c, op, k - 1);
      StepKeepsCurrentExactly(c[k - 1], op[k - 1], c[k]);
    }
  }

  /** The list of group g shows player p with this online flag. */
  ghost predicate Shows<A>(c: Cache<A>, g: nat, p: nat, online: bool)
    requires SlicesOk(c)
  {
    g in c.slices && exists i: nat :: i < c.slices[g].len && At(c, g, i).guid == p && At(c, g, i).online == online
  }

  lemma LoginShows<A>(c: Cache<A>, g: nat, p: nat, online: bool)
    requires Ok(c) && InGroup(c, g, p) && AllCurrent(c)
    ensures Ok(OnlineSet(c, p, online)) && Shows(OnlineSet(c, p, online), g, p, online)
  {
    IndexedMeansInGroup(c, g, p);
    OnlineSetEffect(c, p, online);
    assert At(OnlineSet(c, p, online), g, c.players[p].pos).guid == p;
  }

  /** So in such a run every login and logout of a group member is visible through `GroupByID`. */
  lemma StillRunsShowLogins<A>(c: seq<Cache<A>>, op: seq<Op<A>>, k: nat, g: nat)
    requires IsRun(c, op) && k < |op| && op[k].SetOnline? && StillUntil(c, op, k)
    requires Ok(c[k]) && InGroup(c[k], g, op[k].p)
    ensures Ok(c[k + 1]) && Shows(c[k + 1], g, op[k].p, op[k].online)
  {
    StillRunsStayCurrent(c, op, k);
    RunStates(c, op, k);
    assert c[k + 1] == OnlineSet(c[k], op[k].p, op[k].online);
    hide Ok, AllCurrent, OnlineSet, IsRun, StillUntil;
    LoginShows(c[k], g, op[k].p, op[k].online);
  }

  const ONE := Member(7, 1, false, 0)
  const TWO := Member(7, 2, false, 0)

  /** Player 1 alone in group 7, in an array without spare capacity. */
  ghost function Alone(): Cache<int> {
    Cache(map[7 := Slice(0, 1)], map[0 := Backing(7, [ONE])], map[1 := Entry(Pointer(0, 0), 7, 0)])
  }

  lemma AloneOk()
    ensures Ok(Alone()) && AllCurrent(Alone())
  {
  }

  lemma AloneGrows()
    ensures SlicesOk(Alone()) && !HasRoom(Alone(), 7)
    ensures MemberAdded(Alone(), TWO, 1, [])
            == Cache(map[7 := Slice(1, 2)], map[0 := Backing(7, [ONE]), 1 := Backing(7, [ONE, TWO])],
                     map[1 := Entry(Pointer(0, 0), 7, 0), 2 := Entry(Pointer(1, 1), 7, 1)])
  {
    assert List(Alone(), 7) == [ONE];
    assert [ONE] + [TWO] + [] == [ONE, TWO];
  }

  /**
   Without the capacity the comment at the top of the source file fails: player 1 is alone in group 7, the
   addition of player 2 moves the list, and the login of player 1 is then lost.
   */
  lemma LoginLostAfterReallocation()
    ensures Ok(Alone()) && AllCurrent(Alone()) && Ok(MemberAdded(Alone(), TWO, 1, []))
    ensures var after := OnlineSet(MemberAdded(Alone(), TWO, 1, []), 1, true);
            SlicesOk(after) && InGroup(after, 7, 1) && !Shows(after, 7, 1, true)
  {
    AloneOk();
    AloneGrows();
    var c := MemberAdded(Alone(), TWO, 1, []);
    assert Ok(c) by { MemberAddedEffect(Alone(), TWO, 1, []); }
    hide Ok, Alone, AllCurrent, MemberAdded;
    LoginMissesList(c);
  }

  lemma LoginMissesList(c: Cache<int>)
    requires c == Cache(map[7 := Slice(1, 2)], map[0 := Backing(7, [ONE]), 1 := Backing(7, [ONE, TWO])],
                        map[1 := Entry(Pointer(0, 0), 7, 0), 2 := Entry(Pointer(1, 1), 7, 1)])
    requires Ok(c)
    ensures var after := OnlineSet(c, 1, true);
            SlicesOk(after) && InGroup(after, 7, 1) && !Shows(after, 7, 1, true)
  {
    var after := OnlineSet(c, 1, true);
    assert after.slices[7] == Slice(1, 2) && after.arrays[1].slots == [ONE, TWO];
    assert At(after, 7, 0) == ONE && At(after, 7, 1) == TWO;
    hide PlayersListed, ListsIndexed, PointersOk;
  }
}
