/**
 The online characters of the character server: per realm one index by GUID and one by upper-cased
 name, both holding references to the same characters, which updates change in place.
 `upper` stands for the case mapping; nothing is assumed about it.
 */
module OnlineCharacters {
  import opened UpdatesBarrier

  class Character {
    const realm: nat
    const guid: nat
    const gateway: string
    const name: string
    var view: OnlineView

    constructor (realm: nat, guid: nat, gateway: string, name: string, view: OnlineView)
      ensures this.realm == realm && this.guid == guid && this.gateway == gateway && this.name == name && this.view == view
    {
      this.realm, this.guid, this.gateway, this.name, this.view := realm, guid, gateway, name, view;
    }
  }

  // ------------------------------------------------------------ the two indexes of one realm

  datatype Realm = Realm(guids: map<nat, Character>, names: map<string, Character>)

  /** Both indexes hold the same characters, each under its own GUID and its own upper-cased name. */
  ghost predicate Mirror(upper: string -> string, s: Realm) {
    && (forall g :: g in s.guids ==>
          s.guids[g].guid == g && upper(s.guids[g].name) in s.names && s.names[upper(s.guids[g].name)] == s.guids[g])
    && (forall n :: n in s.names ==>
          upper(s.names[n].name) == n && s.names[n].guid in s.guids && s.guids[s.names[n].guid] == s.names[n])
  }

  ghost function Added(upper: string -> string, s: Realm, ch: Character): Realm {
    Realm(s.guids[ch.guid := ch], s.names[upper(ch.name) := ch])
  }

  /** The second half of a removal, with the name that the first half looked up. */
  ghost function Forgotten(upper: string -> string, s: Realm, guid: nat, name: string): Realm {
    Realm(s.guids - {guid}, s.names - {upper(name)})
  }

  ghost function Purged(s: Realm, gateway: string): Realm {
    Realm(map g | g in s.guids && s.guids[g].gateway != gateway :: s.guids[g],
          map n | n in s.names && s.names[n].gateway != gateway :: s.names[n])
  }

  /** No other name is cached for this character, and no other character under this name. */
  ghost predicate NameAgrees(upper: string -> string, s: Realm, ch: Character) {
    && (ch.guid in s.guids ==> upper(s.guids[ch.guid].name) == upper(ch.name))
    && (upper(ch.name) in s.names ==> s.names[upper(ch.name)].guid == ch.guid)
  }

  /** Adding keeps the indexes mirrored exactly if neither a rename nor a shared name is cached. */
  lemma AddedMirrorsExactly(upper: string -> string, s: Realm, ch: Character)
    requires Mirror(upper, s)
    ensures Mirror(upper, Added(upper, s, ch)) <==> NameAgrees(upper, s, ch)
  {
    var s', n := Added(upper, s, ch), upper(ch.name);
    if ch.guid in s.guids && upper(s.guids[ch.guid].name) != n {
      assert s'.names[upper(s.guids[ch.guid].name)].guid == ch.guid;
    }
    if n in s.names && s.names[n].guid != ch.guid {
      assert s'.guids[s.names[n].guid] == s.names[n];
    }
  }

  /** The looked-up name still belongs to the GUID, or neither is cached any more. */
  ghost predicate NameCurrent(upper: string -> string, s: Realm, guid: nat, name: string) {
    if guid in s.guids then upper(s.guids[guid].name) == upper(name) else upper(name) !in s.names
  }

  /** The second half of a removal keeps the indexes mirrored exactly if the name it carries is current. */
  lemma ForgottenMirrorsExactly(upper: string -> string, s: Realm, guid: nat, name: string)
    requires Mirror(upper, s)
    ensures Mirror(upper, Forgotten(upper, s, guid, name)) <==> NameCurrent(upper, s, guid, name)
  {
    var s', n := Forgotten(upper, s, guid, name), upper(name);
    if guid in s.guids && upper(s.guids[guid].name) != n {
      assert s'.names[upper(s.guids[guid].name)].guid == guid;
    }
    if guid !in s.guids && n in s.names {
      assert s'.guids[s.names[n].guid] == s.names[n];
    }
  }

  lemma PurgedMirrors(upper: string -> string, s: Realm, gateway: string)
    requires Mirror(upper, s)
    ensures Mirror(upper, Purged(s, gateway))
  {
  }

  ghost function Without(s: Realm, gone: seq<nat>): Realm {
    Realm(map g | g in s.guids && g !in gone :: s.guids[g], map n | n in s.names && s.names[n].guid !in gone :: s.names[n])
  }

  lemma WithoutGuids(s: Realm, gateway: string, gone: seq<nat>)
    requires forall g :: g in gone <==> g in s.guids && s.guids[g].gateway == gateway
    ensures Purged(s, gateway).guids == map g | g in s.guids && g !in gone :: s.guids[g]
  {
  }

  lemma WithoutNobody(s: Realm)
    ensures Without(s, []) == s
  {
  }

  /** Deleting one more character from both indexes. */
  lemma WithoutOneMore(upper: string -> string, s: Realm, gone: seq<nat>, guid: nat)
    requires Mirror(upper, s)
    ensures var now := Without(s, gone);
            Without(s, gone + [guid]) == if guid in now.guids
                                         then Realm(now.guids - {guid}, now.names - {upper(now.guids[guid].name)}) else now
  {
  }

  /** Dropping the GUIDs of a gateway's characters from both indexes drops exactly that gateway's characters. */
  lemma DroppedIsPurged(upper: string -> string, s: Realm, gateway: string, gone: seq<nat>)
    requires Mirror(upper, s) && forall g :: g in gone <==> g in s.guids && s.guids[g].gateway == gateway
    ensures Without(s, gone) == Purged(s, gateway)
  {
    assert Without(s, gone).guids == Purged(s, gateway).guids;
    assert Without(s, gone).names == Purged(s, gateway).names;
  }

  lemma NothingPurged(gateway: string)
    ensures Purged(Realm(map[], map[]), gateway) == Realm(map[], map[])
  {
  }

  // ------------------------------------------------------------ any interleaving

  /** The atomic pieces: each runs under the lock; `Forget` may come long after its lookup. */
  datatype Op = Add(ch: Character) | Forget(guid: nat, name: string) | Purge(gateway: string)

  ghost function Next(upper: string -> string, s: Realm, op: Op): Realm {
    match op
    case Add(ch) => Added(upper, s, ch)
    case Forget(guid, name) => Forgotten(upper, s, guid, name)
    case Purge(gateway) => Purged(s, gateway)
  }

  ghost function Played(upper: string -> string, ops: seq<Op>): Realm
    decreases |ops|
  {
    if ops == [] then Realm(map[], map[]) else Next(upper, Played(upper, ops[..|ops| - 1]), ops[|ops| - 1])
  }

  /** Every GUID has one name for good, and no two names differ in case only. */
  ghost predicate FixedNames(upper: string -> string, nameOf: nat -> string, ops: seq<Op>) {
    && UniqueNames(upper, nameOf)
    && forall i :: 0 <= i < |ops| ==> UsesName(nameOf, ops[i])
  }

  ghost predicate UniqueNames(upper: string -> string, nameOf: nat -> string) {
    forall g, h :: upper(nameOf(g)) == upper(nameOf(h)) ==> g == h
  }

  ghost predicate UsesName(nameOf: nat -> string, op: Op) {
    match op
    case Add(ch) => ch.name == nameOf(ch.guid)
    case Forget(guid, name) => name == nameOf(guid)
    case Purge(_) => true
  }

  ghost predicate Named(nameOf: nat -> string, s: Realm) {
    forall g :: g in s.guids ==> s.guids[g].name == nameOf(g)
  }

  lemma NamesKnown(upper: string -> string, nameOf: nat -> string, s: Realm)
    requires Mirror(upper, s) && Named(nameOf, s)
    ensures forall k :: k in s.names ==>
              s.names[k].guid in s.guids && s.names[k].name == nameOf(s.names[k].guid) && upper(s.names[k].name) == k
  {
  }

  lemma NextMirrors(upper: string -> string, nameOf: nat -> string, s: Realm, op: Op)
    requires UniqueNames(upper, nameOf) && UsesName(nameOf, op) && Mirror(upper, s) && Named(nameOf, s)
    ensures Mirror(upper, Next(upper, s, op)) && Named(nameOf, Next(upper, s, op))
  {
    hide Mirror;
    NamesKnown(upper, nameOf, s);
    match op {
      case Add(ch) => AddedMirrorsExactly(upper, s, ch);
      case Forget(guid, name) => ForgottenMirrorsExactly(upper, s, guid, name);
      case Purge(gateway) => PurgedMirrors(upper, s, gateway);
    }
  }

  /** With fixed names the two indexes mirror each other after any interleaving of the pieces. */
  lemma {:induction false} EveryInterleavingMirrors(upper: string -> string, nameOf: nat -> string, ops: seq<Op>)
    requires FixedNames(upper, nameOf, ops)
    ensures Mirror(upper, Played(upper, ops)) && Named(nameOf, Played(upper, ops))
    decreases |ops|
  {
    hide Next, UniqueNames, UsesName;
    if ops != [] {
      EveryInterleavingMirrors(upper, nameOf, ops[..|ops| - 1]);
      NextMirrors(upper, nameOf, Played(upper, ops[..|ops| - 1]), ops[|ops| - 1]);
    }
  }

  // ------------------------------------------------------------ the storage

  class CharactersOnline {
    const upper: string -> string
    var guidStorage: map<nat, map<nat, Character>>
    var nameStorage: map<nat, map<string, Character>>

    /** Both storages know the same realms. */
    ghost predicate Valid()
      reads this
    {
      forall r :: r in guidStorage <==> r in nameStorage
    }

    ghost function RealmAt(r: nat): Realm
      reads this
      requires Valid()
    {
      if r in guidStorage then Realm(guidStorage[r], nameStorage[r]) else Realm(map[], map[])
    }

    constructor (upper: string -> string)
      ensures Valid() && this.upper == upper && forall r :: RealmAt(r) == Realm(map[], map[])
    {
      this.upper, guidStorage, nameStorage := upper, map[], map[];
    }

    method Add(ch: Character)
      requires Valid()
      modifies this
      ensures Valid()
      ensures forall r :: RealmAt(r) == if r == ch.realm then Added(upper, old(RealmAt(r)), ch) else old(RealmAt(r))
      ensures RealmAt(ch.realm).guids == old(RealmAt(ch.realm)).guids[ch.guid := ch]
      ensures RealmAt(ch.realm).names == old(RealmAt(ch.realm)).names[upper(ch.name) := ch]
    {
      if ch.realm !in guidStorage {
        guidStorage := guidStorage[ch.realm := map[]];
        nameStorage := nameStorage[ch.realm := map[]];
      }
      var guids: map<nat, Character> := guidStorage[ch.realm];
      var names: map<string, Character> := nameStorage[ch.realm];
      guids, names := guids[ch.guid := ch], names[upper(ch.name) := ch];
      guidStorage, nameStorage := guidStorage[ch.realm := guids], nameStorage[ch.realm := names];
    }

    method OneByRealmAndGUID(realm: nat, guid: nat) returns (ch: Character?)
      requires Valid()
      ensures ch == if guid in RealmAt(realm).guids then RealmAt(realm).guids[guid] else null
    {
      ch := if realm in guidStorage && guid in guidStorage[realm] then guidStorage[realm][guid] else null;
    }

    method OneByRealmAndName(realm: nat, name: string) returns (ch: Character?)
      requires Valid()
      ensures ch == if upper(name) in RealmAt(realm).names then RealmAt(realm).names[upper(name)] else null
      ensures Mirror(upper, RealmAt(realm)) && ch != null
              ==> upper(ch.name) == upper(name) && ch.guid in RealmAt(realm).guids && RealmAt(realm).guids[ch.guid] == ch
    {
      ch := if realm in nameStorage && upper(name) in nameStorage[realm] then nameStorage[realm][upper(name)] else null;
    }

    /** The part of `Remove` under the write lock; `ch` was looked up under an earlier read lock. */
    method RemoveLocked(realm: nat, guid: nat, ch: Character)
      requires Valid()
      modifies this
      ensures Valid()
      ensures forall r :: RealmAt(r) == if r == realm then Forgotten(upper, old(RealmAt(r)), guid, ch.name) else old(RealmAt(r))
      ensures RealmAt(realm).guids == old(RealmAt(realm)).guids - {guid}
      ensures RealmAt(realm).names == old(RealmAt(realm)).names - {upper(ch.name)}
    {
      if realm in guidStorage {
        guidStorage := guidStorage[realm := guidStorage[realm] - {guid}];
        nameStorage := nameStorage[realm := nameStorage[realm] - {upper(ch.name)}];
      }
    }

    /** `Remove` when nothing comes between its two parts: exactly this character leaves both indexes. */
    method Remove(realm: nat, guid: nat)
      requires Valid() && Mirror(upper, RealmAt(realm))
      modifies this
      ensures Valid() && Mirror(upper, RealmAt(realm))
      ensures RealmAt(realm).guids == old(RealmAt(realm)).guids - {guid}
      ensures forall n :: n in RealmAt(realm).names <==>
                            n in old(RealmAt(realm)).names && old(RealmAt(realm)).names[n].guid != guid
      ensures forall r :: r != realm ==> RealmAt(r) == old(RealmAt(r))
    {
      var ch := OneByRealmAndGUID(realm, guid);
      if ch == null {
        return;
      }
      ForgottenMirrorsExactly(upper, RealmAt(realm), guid, ch.name);
      RemoveLocked(realm, guid, ch);
    }

    /** Takes every character of one gateway out of both indexes of a realm. */
    method RemoveAllWithGatewayID(realm: nat, gateway: string) returns (gone: seq<nat>)
      requires Valid() && Mirror(upper, RealmAt(realm))
      modifies this
      ensures Valid() && Mirror(upper, RealmAt(realm))
      ensures forall r :: RealmAt(r) == if r == realm then Purged(old(RealmAt(r)), gateway) else old(RealmAt(r))
      ensures forall g :: g in gone <==> g in old(RealmAt(realm)).guids && old(RealmAt(realm)).guids[g].gateway == gateway
      ensures RealmAt(realm).guids
              == map g | g in old(RealmAt(realm)).guids && g !in gone :: old(RealmAt(realm)).guids[g]
    {
      hide Mirror, Purged;
      PurgedMirrors(upper, RealmAt(realm), gateway);
      NothingPurged(gateway);
      gone := [];
      if realm in guidStorage {
        gone := OfGateway(guidStorage[realm], gateway);
        DroppedIsPurged(upper, RealmAt(realm), gateway, gone);
        Drop(realm, gone);
      }
      WithoutGuids(old(RealmAt(realm)), gateway, gone);
    }

    /** The loop that collects the characters of a gateway. */
    method OfGateway(storage: map<nat, Character>, gateway: string) returns (gone: seq<nat>)
      ensures forall g :: g in gone <==> g in storage && storage[g].gateway == gateway
    {
      gone := [];
      var left := storage.Keys;
      while left != {}
        invariant left <= storage.Keys
        invariant forall g :: g in gone <==> g in storage && g !in left && storage[g].gateway == gateway
        decreases |left|
      {
        var guid :| guid in left;
        left := left - {guid};
        if storage[guid].gateway == gateway {
          gone := gone + [guid];
        }
      }
    }

    /** The loop that deletes the collected characters from both indexes. */
    method Drop(realm: nat, gone: seq<nat>)
      requires Valid() && realm in guidStorage && Mirror(upper, RealmAt(realm))
      requires forall g :: g in gone ==> g in RealmAt(realm).guids
      modifies this
      ensures Valid() && RealmAt(realm) == Without(old(RealmAt(realm)), gone)
      ensures forall r :: r != realm ==> RealmAt(r) == old(RealmAt(r))
    {
      var storage, namesStorage := DropAll(guidStorage[realm], nameStorage[realm], gone);
      guidStorage, nameStorage := guidStorage[realm := storage], nameStorage[realm := namesStorage];
    }

    method DropAll(guids: map<nat, Character>, names: map<string, Character>, gone: seq<nat>)
      returns (storage: map<nat, Character>, namesStorage: map<string, Character>)
      requires Mirror(upper, Realm(guids, names))
      ensures Realm(storage, namesStorage) == Without(Realm(guids, names), gone)
    {
      hide Mirror, Without;
      storage, namesStorage := guids, names;
      WithoutNobody(Realm(guids, names));
      for i := 0 to |gone|
        invariant Realm(storage, namesStorage) == Without(Realm(guids, names), gone[..i])
      {
        assert gone[..i + 1] == gone[..i] + [gone[i]];
        WithoutOneMore(upper, Realm(guids, names), gone[..i], gone[i]);
        if gone[i] in storage {
          namesStorage := namesStorage - {upper(storage[gone[i]].name)};
          storage := storage - {gone[i]};
        }
      }
      assert gone[..|gone|] == gone;
    }

    /** Applies a batch in order; the characters both indexes hold are updated in place. */
    method HandleCharactersUpdates(realm: nat, updates: seq<Update>)
      requires Valid() && Mirror(upper, RealmAt(realm))
      modifies RealmAt(realm).guids.Values
      ensures forall g :: g in RealmAt(realm).guids ==>
                RealmAt(realm).guids[g].view == After(ApplyOnline, old(RealmAt(realm).guids[g].view), g, updates)
      ensures forall g :: g in RealmAt(realm).guids ==>
                OnlineFields(updates, g, old(RealmAt(realm).guids[g].view), RealmAt(realm).guids[g].view)
    {
      ghost var s := RealmAt(realm);
      hide After;
      NothingApplied(s);
      var i := 0;
      while i < |updates|
        invariant i <= |updates|
        invariant forall g :: g in s.guids ==> s.guids[g].view == After(ApplyOnline, old(s.guids[g].view), g, updates[..i])
      {
        var u := updates[i];
        ghost var before := map g | g in s.guids :: s.guids[g].view;
        if realm in guidStorage && u.id in guidStorage[realm] {
          ApplyCharUpdate(guidStorage[realm][u.id], u);
        }
        assert updates[..i + 1] == updates[..i] + [u];
        forall g | g in s.guids ensures s.guids[g].view == After(ApplyOnline, old(s.guids[g].view), g, updates[..i + 1]) {
          AfterAppend(ApplyOnline, old(s.guids[g].view), g, updates[..i], [u]);
          AfterOne(ApplyOnline, before[g], g, u);
        }
        i := i + 1;
      }
      assert updates[..i] == updates;
      FieldsApplied(updates);
      hide OnlineFields;
    }
  }

  lemma FieldsApplied(updates: seq<Update>)
    ensures forall v, g :: OnlineFields(updates, g, v, After(ApplyOnline, v, g, updates))
  {
    forall v, g ensures OnlineFields(updates, g, v, After(ApplyOnline, v, g, updates)) {
      OnlineFieldsAreLast(v, g, updates);
    }
  }

  lemma NothingApplied(s: Realm)
    ensures forall v, g :: After(ApplyOnline, v, g, []) == v
  {
  }

  method ApplyCharUpdate(ch: Character, u: Update)
    modifies ch
    ensures ch.view == ApplyOnline(old(ch.view), u)
    ensures ch.view.zone == if u.zone.Some? then u.zone.value else old(ch.view.zone)
    ensures ch.view.level == if u.lvl.Some? then u.lvl.value else old(ch.view.level)
    ensures ch.view.mapId == if u.mapId.Some? then u.mapId.value else old(ch.view.mapId)
  {
    if u.zone.Some? {
      ch.view := ch.view.(zone := u.zone.value);
    }
    if u.lvl.Some? {
      ch.view := ch.view.(level := u.lvl.value);
    }
    if u.mapId.Some? {
      ch.view := ch.view.(mapId := u.mapId.value);
    }
  }
}
