/**
 The chat server's characters: two indexes over all realms with keys that are text, `realm:guid` and
 `realm:lower-case name`, and the purge of a realm by key prefix.  `lower` stands for the case mapping.
 */
module RealmCharacters {
  import opened Decimal

  datatype Character = Character(realm: nat, guid: nat, name: string)

  function GuidKey(realm: nat, guid: nat): string {
    Digits(realm) + ":" + Digits(guid)
  }

  function NameKey(lower: string -> string, realm: nat, name: string): string {
    Digits(realm) + ":" + lower(name)
  }

  function RealmPrefix(realm: nat): string {
    Digits(realm) + ":"
  }

  datatype Indexes = Indexes(byGuid: map<string, Character>, byName: map<string, Character>)

  function KeyG(ch: Character): string {
    GuidKey(ch.realm, ch.guid)
  }

  function KeyN(lower: string -> string, ch: Character): string {
    NameKey(lower, ch.realm, ch.name)
  }

  /** Both indexes hold the same characters, each under its own keys. */
  ghost predicate Mirror(lower: string -> string, s: Indexes) {
    && (forall k :: k in s.byGuid ==>
          var ch := s.byGuid[k]; KeyG(ch) == k && KeyN(lower, ch) in s.byName && s.byName[KeyN(lower, ch)] == ch)
    && (forall k :: k in s.byName ==>
          var ch := s.byName[k]; KeyN(lower, ch) == k && KeyG(ch) in s.byGuid && s.byGuid[KeyG(ch)] == ch)
  }

  // ------------------------------------------------------------ keys

  /** A name key starts with a realm's prefix exactly when it is a key of that realm. */
  lemma PrefixIsRealm(lower: string -> string, realm: nat, ch: Character)
    ensures RealmPrefix(realm) <= KeyN(lower, ch) <==> ch.realm == realm
  {
    NumberedPrefix(realm, ch.realm, ':', lower(ch.name));
  }

  lemma GuidKeyInjective(r: nat, g: nat, r': nat, g': nat)
    ensures GuidKey(r, g) == GuidKey(r', g') <==> r == r' && g == g'
  {
    if GuidKey(r, g) == GuidKey(r', g') {
      NumberedPrefix(r, r', ':', Digits(g'));
      assert Digits(r) + [':'] == RealmPrefix(r) && RealmPrefix(r) <= GuidKey(r, g);
      assert Digits(g) == GuidKey(r, g)[|RealmPrefix(r)|..];
      DigitsInjective(g, g');
    }
  }

  lemma NameKeyInjective(lower: string -> string, r: nat, n: string, r': nat, n': string)
    ensures NameKey(lower, r, n) == NameKey(lower, r', n') <==> r == r' && lower(n) == lower(n')
  {
    if NameKey(lower, r, n) == NameKey(lower, r', n') {
      NumberedPrefix(r, r', ':', lower(n'));
      assert Digits(r) + [':'] == RealmPrefix(r) && RealmPrefix(r) <= NameKey(lower, r, n);
      assert lower(n) == NameKey(lower, r, n)[|RealmPrefix(r)|..];
    }
  }

  // ------------------------------------------------------------ operations

  function Added(lower: string -> string, s: Indexes, ch: Character): Indexes {
    Indexes(s.byGuid[KeyG(ch) := ch], s.byName[KeyN(lower, ch) := ch])
  }

  function Removed(lower: string -> string, s: Indexes, realm: nat, guid: nat): Indexes {
    var key := GuidKey(realm, guid);
    Indexes(s.byGuid - {key}, if key in s.byGuid then s.byName - {NameKey(lower, realm, s.byGuid[key].name)} else s.byName)
  }

  /** Only the characters of other realms. */
  ghost function WithoutRealm(s: Indexes, realm: nat): Indexes {
    Indexes(map k | k in s.byGuid && s.byGuid[k].realm != realm :: s.byGuid[k],
            map k | k in s.byName && s.byName[k].realm != realm :: s.byName[k])
  }

  /** No other name is cached for this character, and no other character under this name. */
  ghost predicate NameAgrees(lower: string -> string, s: Indexes, ch: Character) {
    && (KeyG(ch) in s.byGuid ==> KeyN(lower, s.byGuid[KeyG(ch)]) == KeyN(lower, ch))
    && (KeyN(lower, ch) in s.byName ==> KeyG(s.byName[KeyN(lower, ch)]) == KeyG(ch))
  }

  lemma AddedMirrorsExactly(lower: string -> string, s: Indexes, ch: Character)
    requires Mirror(lower, s)
    ensures Mirror(lower, Added(lower, s, ch)) <==> NameAgrees(lower, s, ch)
  {
    hide KeyG, KeyN;
    var s' := Added(lower, s, ch);
    if KeyG(ch) in s.byGuid && KeyN(lower, s.byGuid[KeyG(ch)]) != KeyN(lower, ch) {
      assert KeyN(lower, s.byGuid[KeyG(ch)]) in s'.byName;
    }
    if KeyN(lower, ch) in s.byName && KeyG(s.byName[KeyN(lower, ch)]) != KeyG(ch) {
      assert KeyG(s.byName[KeyN(lower, ch)]) in s'.byGuid;
    }
  }

  /** A removal takes the character out of both indexes, and no other. */
  lemma RemovedMirrors(lower: string -> string, s: Indexes, realm: nat, guid: nat)
    requires Mirror(lower, s)
    ensures Mirror(lower, Removed(lower, s, realm, guid))
    ensures forall k :: k in Removed(lower, s, realm, guid).byName <==>
                          k in s.byName && !(s.byName[k].realm == realm && s.byName[k].guid == guid)
  {
    hide Digits, GuidKey, NameKey, KeyG, KeyN, Mirror;
    var key := GuidKey(realm, guid);
    forall k | k in s.byName ensures KeyG(s.byName[k]) == key <==> s.byName[k].realm == realm && s.byName[k].guid == guid {
      KeyOf(s.byName[k], realm, guid);
    }
    if key in s.byGuid {
      var ch := s.byGuid[key];
      OwnKey(lower, s, realm, guid);
      PairRemovedMirrors(lower, s, ch);
    } else {
      NotIndexed(lower, s, key);
      assert s.byGuid - {key} == s.byGuid;
    }
  }

  lemma KeyOf(ch: Character, realm: nat, guid: nat)
    ensures KeyG(ch) == GuidKey(realm, guid) <==> ch.realm == realm && ch.guid == guid
  {
    GuidKeyInjective(ch.realm, ch.guid, realm, guid);
  }

  lemma OwnKey(lower: string -> string, s: Indexes, realm: nat, guid: nat)
    requires Mirror(lower, s) && GuidKey(realm, guid) in s.byGuid
    ensures var ch := s.byGuid[GuidKey(realm, guid)];
            KeyG(ch) == GuidKey(realm, guid) && KeyN(lower, ch) == NameKey(lower, realm, ch.name)
  {
    var ch := s.byGuid[GuidKey(realm, guid)];
    GuidKeyInjective(ch.realm, ch.guid, realm, guid);
  }

  lemma NotIndexed(lower: string -> string, s: Indexes, key: string)
    requires Mirror(lower, s) && key !in s.byGuid
    ensures forall k :: k in s.byName ==> KeyG(s.byName[k]) != key
  {
    hide KeyG, KeyN;
  }

  lemma PairRemovedMirrors(lower: string -> string, s: Indexes, ch: Character)
    requires Mirror(lower, s) && KeyG(ch) in s.byGuid && s.byGuid[KeyG(ch)] == ch
    ensures Mirror(lower, Indexes(s.byGuid - {KeyG(ch)}, s.byName - {KeyN(lower, ch)}))
    ensures forall k :: k in s.byName ==> (k == KeyN(lower, ch) <==> KeyG(s.byName[k]) == KeyG(ch))
  {
    hide KeyG, KeyN;
  }

  lemma WithoutRealmMirrors(lower: string -> string, s: Indexes, realm: nat)
    requires Mirror(lower, s)
    ensures Mirror(lower, WithoutRealm(s, realm))
  {
    hide KeyG, KeyN;
  }

  // ------------------------------------------------------------ runs

  datatype Op = Add(ch: Character) | Remove(realm: nat, guid: nat) | PurgeRealm(realm: nat)

  ghost function After(lower: string -> string, ops: seq<Op>): Indexes
    decreases |ops|
  {
    if ops == [] then Indexes(map[], map[])
    else
      var s := After(lower, ops[..|ops| - 1]);
      match ops[|ops| - 1]
      case Add(ch) => Added(lower, s, ch)
      case Remove(realm, guid) => Removed(lower, s, realm, guid)
      case PurgeRealm(realm) => WithoutRealm(s, realm)
  }

  /** In a realm every GUID has one name for good, and no two names differ in case only. */
  ghost predicate FixedNames(lower: string -> string, nameOf: (nat, nat) -> string, ops: seq<Op>) {
    && (forall r, g, h :: lower(nameOf(r, g)) == lower(nameOf(r, h)) ==> g == h)
    && forall i :: 0 <= i < |ops| && ops[i].Add? ==> ops[i].ch.name == nameOf(ops[i].ch.realm, ops[i].ch.guid)
  }

  ghost predicate Named(nameOf: (nat, nat) -> string, s: Indexes) {
    && (forall k :: k in s.byGuid ==> s.byGuid[k].name == nameOf(s.byGuid[k].realm, s.byGuid[k].guid))
    && (forall k :: k in s.byName ==> s.byName[k].name == nameOf(s.byName[k].realm, s.byName[k].guid))
  }

  /** With fixed names the two indexes mirror each other after any run of additions, removals and realm purges. */
  lemma {:induction false} EveryRunMirrors(lower: string -> string, nameOf: (nat, nat) -> string, ops: seq<Op>)
    requires FixedNames(lower, nameOf, ops)
    ensures Mirror(lower, After(lower, ops)) && Named(nameOf, After(lower, ops))
    decreases |ops|
  {
    hide Mirror, Digits, GuidKey, NameKey, KeyG, KeyN;
    if ops == [] {
      EmptyMirrors(lower);
    } else {
      var s := After(lower, ops[..|ops| - 1]);
      EveryRunMirrors(lower, nameOf, ops[..|ops| - 1]);
      match ops[|ops| - 1] {
        case Add(ch) =>
          FixedNamesAgree(lower, nameOf, s, ch);
          AddedMirrorsExactly(lower, s, ch);
        case Remove(realm, guid) => RemovedMirrors(lower, s, realm, guid);
        case PurgeRealm(realm) => WithoutRealmMirrors(lower, s, realm);
      }
    }
  }

  lemma EmptyMirrors(lower: string -> string)
    ensures Mirror(lower, Indexes(map[], map[]))
  {
  }

  lemma FixedNamesAgree(lower: string -> string, nameOf: (nat, nat) -> string, s: Indexes, ch: Character)
    requires Mirror(lower, s) && Named(nameOf, s) && ch.name == nameOf(ch.realm, ch.guid)
    requires forall r, g, h :: lower(nameOf(r, g)) == lower(nameOf(r, h)) ==> g == h
    ensures NameAgrees(lower, s, ch)
  {
    if KeyG(ch) in s.byGuid {
      var other := s.byGuid[KeyG(ch)];
      GuidKeyInjective(ch.realm, ch.guid, other.realm, other.guid);
    }
    if KeyN(lower, ch) in s.byName {
      var other := s.byName[KeyN(lower, ch)];
      NameKeyInjective(lower, ch.realm, ch.name, other.realm, other.name);
    }
  }

  // ------------------------------------------------------------ the repository

  class CharactersInMemRepo {
    const lower: string -> string
    var charsByGUID: map<string, Character>
    var charsByName: map<string, Character>

    ghost function State(): Indexes
      reads this
    {
      Indexes(charsByGUID, charsByName)
    }

    constructor (lower: string -> string)
      ensures this.lower == lower && State() == Indexes(map[], map[]) && Mirror(lower, State())
    {
      this.lower, charsByGUID, charsByName := lower, map[], map[];
    }

    method AddCharacter(ch: Character)
      modifies this
      ensures State() == Added(lower, old(State()), ch)
      ensures charsByGUID == old(charsByGUID)[GuidKey(ch.realm, ch.guid) := ch]
      ensures charsByName == old(charsByName)[NameKey(lower, ch.realm, ch.name) := ch]
    {
      charsByGUID := charsByGUID[GuidKey(ch.realm, ch.guid) := ch];
      charsByName := charsByName[NameKey(lower, ch.realm, ch.name) := ch];
    }

    method RemoveCharacter(realm: nat, guid: nat)
      modifies this
      ensures State() == Removed(lower, old(State()), realm, guid)
      ensures charsByGUID == old(charsByGUID) - {GuidKey(realm, guid)}
      ensures Mirror(lower, old(State())) ==> Mirror(lower, State())
      ensures Mirror(lower, old(State())) ==>
                forall k :: k in charsByName <==>
                  k in old(charsByName) && !(old(charsByName)[k].realm == realm && old(charsByName)[k].guid == guid)
    {
      hide Mirror, GuidKey, NameKey;
      ghost var s := State();
      if Mirror(lower, s) {
        RemovedMirrors(lower, s, realm, guid);
      }
      var key := GuidKey(realm, guid);
      if key in charsByGUID {
        charsByName := charsByName - {NameKey(lower, realm, charsByGUID[key].name)};
      }
      charsByGUID := charsByGUID - {key};
    }

    /** Iterates over the name index and deletes by prefix; exactly the realm's characters go, from both indexes. */
    method RemoveCharactersWithRealm(realm: nat)
      requires Mirror(lower, State())
      modifies this
      ensures State() == WithoutRealm(old(State()), realm) && Mirror(lower, State())
    {
      hide Mirror, KeyG, KeyN, GuidKey, NameKey, RealmPrefix, WithoutRealm;
      WithoutRealmMirrors(lower, State(), realm);
      ghost var s := State();
      var guidKeys := DeleteNames(realm);
      DeletedIsWithoutRealm(lower, s, realm, guidKeys);
      var i := 0;
      while i < |guidKeys|
        invariant i <= |guidKeys|
        invariant charsByName == map k | k in s.byName && !(RealmPrefix(realm) <= k) :: s.byName[k]
        invariant charsByGUID == map k | k in s.byGuid && k !in guidKeys[..i] :: s.byGuid[k]
      {
        charsByGUID := charsByGUID - {guidKeys[i]};
        i := i + 1;
      }
      assert guidKeys[..i] == guidKeys;
    }

    /** The first loop: names with the realm's prefix are deleted, the GUID keys of their characters collected. */
    method DeleteNames(realm: nat) returns (guidKeys: seq<string>)
      modifies `charsByName
      ensures charsByName == map k | k in old(charsByName) && !(RealmPrefix(realm) <= k) :: old(charsByName)[k]
      ensures forall g :: g in guidKeys <==>
                exists k :: k in old(charsByName) && RealmPrefix(realm) <= k && g == GuidKey(realm, old(charsByName)[k].guid)
    {
      hide GuidKey, RealmPrefix;
      guidKeys := [];
      var left := charsByName.Keys;
      while left != {}
        invariant left <= old(charsByName).Keys
        invariant forall k :: k in charsByName <==> k in old(charsByName) && (k in left || !(RealmPrefix(realm) <= k))
        invariant forall k :: k in charsByName ==> charsByName[k] == old(charsByName)[k]
        invariant forall g :: g in guidKeys <==>
                    exists k :: k in old(charsByName) && k !in left && RealmPrefix(realm) <= k
                                && g == GuidKey(realm, old(charsByName)[k].guid)
        decreases |left|
      {
        var k :| k in left;
        ghost var was := left;
        left := left - {k};
        if RealmPrefix(realm) <= k {
          guidKeys := guidKeys + [GuidKey(realm, charsByName[k].guid)];
          charsByName := charsByName - {k};
        }
      }
    }
  }

  /** What the two loops leave is what belongs to other realms. */
  lemma DeletedIsWithoutRealm(lower: string -> string, s: Indexes, realm: nat, guidKeys: seq<string>)
    requires Mirror(lower, s)
    requires forall g :: g in guidKeys <==>
               exists k :: k in s.byName && RealmPrefix(realm) <= k && g == GuidKey(realm, s.byName[k].guid)
    ensures WithoutRealm(s, realm) == Indexes(map k | k in s.byGuid && k !in guidKeys :: s.byGuid[k],
                                              map k | k in s.byName && !(RealmPrefix(realm) <= k) :: s.byName[k])
  {
    hide KeyG, KeyN, GuidKey, RealmPrefix;
    forall k | k in s.byName ensures RealmPrefix(realm) <= k <==> s.byName[k].realm == realm {
      PrefixIsRealm(lower, realm, s.byName[k]);
    }
    forall g | g in s.byGuid ensures g in guidKeys <==> s.byGuid[g].realm == realm {
      GuidKeyOfRealm(lower, s, realm, guidKeys, g);
    }
  }

  lemma GuidKeyOfRealm(lower: string -> string, s: Indexes, realm: nat, guidKeys: seq<string>, g: string)
    requires Mirror(lower, s) && g in s.byGuid
    requires forall g :: g in guidKeys <==>
               exists k :: k in s.byName && RealmPrefix(realm) <= k && g == GuidKey(realm, s.byName[k].guid)
    ensures g in guidKeys <==> s.byGuid[g].realm == realm
  {
    var ch := s.byGuid[g];
    PrefixIsRealm(lower, realm, ch);
    if g in guidKeys {
      var k :| k in s.byName && RealmPrefix(realm) <= k && g == GuidKey(realm, s.byName[k].guid);
      GuidKeyInjective(ch.realm, ch.guid, realm, s.byName[k].guid);
    }
    if ch.realm == realm {
      assert KeyN(lower, ch) in s.byName;
    }
  }
}
