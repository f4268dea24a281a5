/** The profile record and the store of profiles, keyed by profile name. */
module Profiles {
  import opened Text

  /** One saved identity; `remote` empty means "leave the remote alone". */
  datatype Profile = Profile(profileName: string, name: string, email: string, remote: string)

  /** The JSON dictionary on disk, as loaded: profile key to profile. */
  type Store = map<string, Profile>

  /** Every entry is stored under its own `profileName`. */
  predicate NamesMatchKeys(store: Store) {
    forall k :: k in store ==> store[k].profileName == k
  }

  /** All four fields were read through the trimming prompt. */
  predicate FieldsTrimmed(p: Profile) {
    Trimmed(p.profileName) && Trimmed(p.name) && Trimmed(p.email) && Trimmed(p.remote)
  }

  /** What every store built only by the program's own commands satisfies. */
  predicate WellFormed(store: Store) {
    NamesMatchKeys(store) && forall k :: k in store ==> FieldsTrimmed(store[k])
  }

  /** `order` is one enumeration of the store's keys, each exactly once:
      `HashMap::keys` in whatever order the map happens to yield them. */
  predicate IsListing(order: seq<string>, store: Store) {
    && (forall i, j :: 0 <= i < j < |order| ==> order[i] != order[j])
    && (forall i :: 0 <= i < |order| ==> order[i] in store)
    && (forall k :: k in store ==> k in order)
  }

  /** A store is empty exactly when its listing is. */
  lemma ListingEmpty(order: seq<string>, store: Store)
    requires IsListing(order, store)
    ensures order == [] <==> store == map[]
  {
    if store != map[] {
      var k :| k in store;
      assert k in order;
    }
    if order != [] {
      assert order[0] in store;
    }
  }
}
