/** The map from keys to values that a cache stands for. */
module CacheMaps {
  import opened ByteStrings
  import opened HandleTables

  /** A key with its hash; a handle is found by both. */
  datatype Name = Name(key: Bytes, hash: nat)

  function NameOf(item: Item): Name {
    Name(item.key, item.hash)
  }

  /** `e` is the member that the map has under the name. */
  ghost predicate Holds(items: map<nat, Item>, members: set<nat>, k: Name, e: nat) {
    e in members && e in items && NameOf(items[e]) == k
  }

  ghost predicate Named(items: map<nat, Item>, members: set<nat>, k: Name) {
    exists e :: Holds(items, members, k, e)
  }

  ghost function NamesIn(items: map<nat, Item>, gone: set<nat>): set<Name> {
    set e | e in gone && e in items :: NameOf(items[e])
  }

  lemma InNames(items: map<nat, Item>, gone: set<nat>, k: Name)
    ensures k in NamesIn(items, gone) <==> Named(items, gone, k)
  {
    if Named(items, gone, k) {
      var e :| Holds(items, gone, k, e);
    }
    if k in NamesIn(items, gone) {
      var e :| e in gone && e in items && NameOf(items[e]) == k;
      assert Holds(items, gone, k, e);
    }
  }

  ghost function Holder(items: map<nat, Item>, members: set<nat>, k: Name): (e: nat)
    requires Named(items, members, k)
    ensures Holds(items, members, k, e)
  {
    var e :| Holds(items, members, k, e);
    e
  }

  /** The values of the members under their names. */
  ghost function MapOf(items: map<nat, Item>, members: set<nat>): map<Name, nat> {
    map k | k in NamesIn(items, members) && Named(items, members, k) :: items[Holder(items, members, k)].value
  }

  lemma InMap(items: map<nat, Item>, members: set<nat>, k: Name)
    ensures k in MapOf(items, members) <==> Named(items, members, k)
  {
    InNames(items, members, k);
  }

  lemma MapHas(items: map<nat, Item>, members: set<nat>, k: Name, e: nat)
    requires Identified(items, members) && Holds(items, members, k, e)
    ensures k in MapOf(items, members) && MapOf(items, members)[k] == items[e].value
  {
    InMap(items, members, k);
    assert Holds(items, members, k, Holder(items, members, k));
  }

  /** A lookup in the table is a lookup in the map. */
  lemma LookupInMap(items: map<nat, Item>, members: set<nat>, key: Bytes, hash: nat, e: int)
    requires Identified(items, members) && IsLookup(items, members, key, hash, e)
    ensures e == NIL <==> Name(key, hash) !in MapOf(items, members)
    ensures e != NIL ==> items[e].value == MapOf(items, members)[Name(key, hash)]
  {
    hide MapOf;
    var k := Name(key, hash);
    InMap(items, members, k);
    if e != NIL {
      MapHas(items, members, k, e);
    }
    if Named(items, members, k) {
      var f := Holder(items, members, k);
      assert Matches(items[f], key, hash);
    }
  }

  /** Members that leave take exactly their names with them; what else happens to other items does not matter. */
  lemma MapWithout(items: map<nat, Item>, items': map<nat, Item>, members: set<nat>, gone: set<nat>)
    requires Identified(items, members) && gone <= members
    requires forall e :: e in members && e !in gone ==> e in items' && items'[e] == items[e]
    ensures Identified(items', members - gone)
    ensures MapOf(items', members - gone) == MapOf(items, members) - NamesIn(items, gone)
  {
    StillIdentified(items, items', members, gone);
    hide MapOf, NamesIn, Identified, Named;
    var m, m', g := MapOf(items, members), MapOf(items', members - gone), NamesIn(items, gone);
    forall k ensures k in m' <==> k in m && k !in g {
      NamesLeft(items, items', members, gone, k);
      InMap(items, members, k);
      InMap(items', members - gone, k);
      InNames(items, gone, k);
    }
    forall k | k in m' ensures k in m && m'[k] == m[k] {
      InMap(items', members - gone, k);
      var e := Holder(items', members - gone, k);
      MapHas(items', members - gone, k, e);
      MapHas(items, members, k, e);
    }
    MapMinus(m, m', g);
  }

  lemma MapMinus(m: map<Name, nat>, m': map<Name, nat>, g: set<Name>)
    requires forall k :: k in m' <==> k in m && k !in g
    requires forall k :: k in m' ==> m'[k] == m[k]
    ensures m' == m - g
  {
  }

  lemma StillIdentified(items: map<nat, Item>, items': map<nat, Item>, members: set<nat>, gone: set<nat>)
    requires Identified(items, members)
    requires forall e :: e in members && e !in gone ==> e in items' && items'[e] == items[e]
    ensures Identified(items', members - gone)
  {
  }

  lemma NamesLeft(items: map<nat, Item>, items': map<nat, Item>, members: set<nat>, gone: set<nat>, k: Name)
    requires Identified(items, members) && gone <= members
    requires forall e :: e in members && e !in gone ==> e in items' && items'[e] == items[e]
    ensures Named(items', members - gone, k) <==> Named(items, members, k) && !Named(items, gone, k)
  {
    if Named(items', members - gone, k) {
      var e := Holder(items', members - gone, k);
      assert Holds(items, members, k, e);
      assert forall f :: Holds(items, gone, k, f) ==> f == e;
    }
    if Named(items, members, k) && !Named(items, gone, k) {
      var e := Holder(items, members, k);
      assert e in gone ==> Holds(items, gone, k, e);
      assert Holds(items', members - gone, k, e);
    }
  }

  lemma MapUnchanged(items: map<nat, Item>, items': map<nat, Item>, members: set<nat>)
    requires Identified(items, members)
    requires forall e :: e in members ==> e in items' && items'[e] == items[e]
    ensures Identified(items', members) && MapOf(items', members) == MapOf(items, members)
  {
    hide MapOf, NamesIn, Identified;
    MapWithout(items, items', members, {});
    assert members - {} == members;
    NamesInNone(items);
  }

  lemma NamesInNone(items: map<nat, Item>)
    ensures NamesIn(items, {}) == {}
  {
  }

  /** A new member replaces the one of its name. */
  lemma MapWith(items: map<nat, Item>, members: set<nat>, e: nat, replaced: int)
    requires Identified(items, members) && e in items && e !in members
    requires IsLookup(items, members, items[e].key, items[e].hash, replaced)
    ensures Identified(items, Without(members, replaced) + {e})
    ensures MapOf(items, Without(members, replaced) + {e})
         == MapOf(items, members)[NameOf(items[e]) := items[e].value]
  {
    var members' := Without(members, replaced) + {e};
    forall f | f in members && NameOf(items[f]) == NameOf(items[e]) ensures f == replaced {
      assert Matches(items[f], items[e].key, items[e].hash);
    }
    assert Identified(items, members');
    hide MapOf, Identified, IsLookup, Named, Without;
    var m, m', k0 := MapOf(items, members), MapOf(items, members'), NameOf(items[e]);
    MapHas(items, members', k0, e);
    forall k | k != k0 ensures k in m' <==> k in m {
      NamesBut(items, members, members', e, replaced, k);
      InMap(items, members, k);
      InMap(items, members', k);
    }
    forall k | k in m' && k != k0 ensures k in m && m'[k] == m[k] {
      InMap(items, members', k);
      var f := Holder(items, members', k);
      InWithout(members, replaced, f);
      MapHas(items, members', k, f);
      MapHas(items, members, k, f);
    }
    MapPlus(m, m', k0, items[e].value);
  }

  lemma InWithout(members: set<nat>, replaced: int, f: nat)
    ensures f in Without(members, replaced) <==> f in members && f != replaced
  {
  }

  lemma MapPlus(m: map<Name, nat>, m': map<Name, nat>, k0: Name, v: nat)
    requires k0 in m' && m'[k0] == v
    requires forall k :: k != k0 ==> (k in m' <==> k in m)
    requires forall k :: k in m' && k != k0 ==> m'[k] == m[k]
    ensures m' == m[k0 := v]
  {
  }

  lemma NamesBut(items: map<nat, Item>, members: set<nat>, members': set<nat>, e: nat, replaced: int, k: Name)
    requires e in items && k != NameOf(items[e]) && members' == Without(members, replaced) + {e}
    requires replaced >= 0 && replaced in members && replaced in items ==> NameOf(items[replaced]) == NameOf(items[e])
    ensures Named(items, members', k) <==> Named(items, members, k)
  {
    if Named(items, members', k) {
      var f := Holder(items, members', k);
      assert Holds(items, members, k, f);
    }
    if Named(items, members, k) {
      var f := Holder(items, members, k);
      assert Holds(items, members', k, f);
    }
  }
}
