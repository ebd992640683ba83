/**
 * src/components/network/ContactList.tsx: the search filter, the list after a delete, and the
 * hierarchy degree ("derece") each card shows, computed by walking parent links with a cycle guard.
 */
module ContactList {
  import opened Wrappers
  import opened Text
  import opened Seqs
  import opened Contacts

  // ---------------------------------------------------------------- search

  /** `field?.toLowerCase().includes(term)` for a nullable field. */
  predicate FieldContains(field: Option<string>, term: string) {
    field.Some? && Contains(Lower(field.value), term)
  }

  /** `items?.some(x => x.toLowerCase().includes(term))`. */
  predicate AnyContains(items: seq<string>, term: string) {
    exists i :: 0 <= i < |items| && Contains(Lower(items[i]), term)
  }

  /** The filter predicate; `term` is the search box text, lower-cased but not trimmed. */
  predicate ListMatches(c: Contact, term: string) {
    || Contains(Lower(c.firstName), term)
    || Contains(Lower(c.lastName), term)
    || FieldContains(c.profession, term)
    || FieldContains(c.city, term)
    || AnyContains(c.services, term)
    || AnyContains(c.tags, term)
  }

  /** The debounced search: a blank box shows everyone, otherwise the matching contacts in list order. */
  function SearchContacts(contacts: seq<Contact>, searchTerm: string): (r: seq<Contact>)
    ensures AllSpace(searchTerm) ==> r == contacts
    ensures !AllSpace(searchTerm) ==>
      && IsSublist(r, contacts)
      && (forall i :: 0 <= i < |r| ==> ListMatches(r[i], Lower(searchTerm)))
      && (forall i :: 0 <= i < |contacts| && ListMatches(contacts[i], Lower(searchTerm)) ==> contacts[i] in r)
  {
    TrimEmptyIffBlank(searchTerm);
    if Trim(searchTerm) == "" then contacts
    else
      var r := Filter(contacts, (c: Contact) => ListMatches(c, Lower(searchTerm)));
      FilterIsSublist(contacts, (c: Contact) => ListMatches(c, Lower(searchTerm)));
      r
  }

  /** A sample contact for the search examples. */
  function Ali(): Contact {
    Contact("1", "Ali", "Can", None, None, 5, [], [], None, None, None, None)
  }

  /** Typing part of a name finds the contact. */
  lemma SearchFindsName()
    ensures SearchContacts([Ali()], "ali") == [Ali()]
  {
    assert Lower("Ali") == "ali" by {
      assert Lower("Ali")[0] == 'a';
    }
    assert Contains("ali", "ali");
    assert !AllSpace("ali") by {
      assert !IsSpace("ali"[0]);
    }
    assert ListMatches(Ali(), Lower("ali"));
  }

  /** The typed term is only lower-cased, not trimmed: a trailing space takes part in the match. */
  lemma SearchKeepsTrailingSpace()
    ensures SearchContacts([Ali()], "ali ") == []
  {
    assert !AllSpace("ali ") by {
      assert !IsSpace("ali "[0]);
    }
    ContainsLonger(Lower("Ali"), Lower("ali "));
    ContainsLonger(Lower("Can"), Lower("ali "));
    assert !ListMatches(Ali(), Lower("ali "));
  }

  // ---------------------------------------------------------------- delete

  /** `handleDelete`: after a successful delete the list loses every entry with that id; a failure changes nothing. */
  function AfterDelete(contacts: seq<Contact>, id: string, deleted: bool): (r: seq<Contact>)
    ensures !deleted ==> r == contacts
    ensures deleted ==>
      && IsSublist(r, contacts)
      && (forall i :: 0 <= i < |r| ==> r[i].id != id)
      && (forall i :: 0 <= i < |contacts| && contacts[i].id != id ==> contacts[i] in r)
      && |r| == |contacts| - |Filter(contacts, (c: Contact) => c.id == id)|
  {
    if !deleted then contacts
    else
      FilterIsSublist(contacts, (c: Contact) => c.id != id);
      FilterSplitsLength(contacts, (c: Contact) => c.id != id, (c: Contact) => c.id == id);
      Filter(contacts, (c: Contact) => c.id != id)
  }

  // ---------------------------------------------------------------- degree

  /** An id-to-contact map in which every contact is stored under its own id. */
  predicate KeyedById(byId: map<string, Contact>) {
    forall k :: k in byId ==> byId[k].id == k
  }

  /** `contacts.forEach(c => map.set(c.id, c))`: a later contact with the same id replaces an earlier one. */
  function ById(contacts: seq<Contact>): (m: map<string, Contact>)
    ensures KeyedById(m)
  {
    if contacts == [] then map[]
    else
      var last := contacts[|contacts| - 1];
      ById(contacts[..|contacts| - 1])[last.id := last]
  }

  /** Every listed id is a key of the id map. */
  lemma {:induction false} ByIdHasEveryId(contacts: seq<Contact>)
    ensures forall i :: 0 <= i < |contacts| ==> contacts[i].id in ById(contacts)
  {
    if contacts != [] {
      var init := contacts[..|contacts| - 1];
      ByIdHasEveryId(init);
      assert forall i :: 0 <= i < |init| ==> init[i] == contacts[i];
    }
  }

  /** The id map holds only listed contacts, and no more entries than the list. */
  lemma {:induction false} ByIdOnlyListed(contacts: seq<Contact>)
    ensures forall k :: k in ById(contacts) ==> ById(contacts)[k] in contacts
    ensures |ById(contacts)| <= |contacts|
  {
    if contacts != [] {
      var init := contacts[..|contacts| - 1];
      ByIdOnlyListed(init);
      assert forall c :: c in init ==> c in contacts;
    }
  }

  /** The contact stored under an id is the last one listed with it. */
  lemma {:induction false} ByIdLastWins(contacts: seq<Contact>, i: nat)
    requires i < |contacts|
    requires forall j :: i < j < |contacts| ==> contacts[j].id != contacts[i].id
    ensures contacts[i].id in ById(contacts) && ById(contacts)[contacts[i].id] == contacts[i]
  {
    if i < |contacts| - 1 {
      var init := contacts[..|contacts| - 1];
      ByIdLastWins(init, i);
    }
  }

  /** `map.get(id)`. */
  function Lookup(byId: map<string, Contact>, id: string): Option<Contact> {
    if id in byId then Some(byId[id]) else None
  }

  /**
   * The parent links the degree walk follows from `current` when the ids in `visited` have been seen:
   * it stops at a contact without a parent, at a parent id missing from the map, and at a revisited id.
   */
  function Climb(byId: map<string, Contact>, current: Option<Contact>, visited: set<string>): (n: nat)
    requires KeyedById(byId) && visited <= byId.Keys
    requires current.Some? ==> current.value.id in byId
    ensures n <= |byId.Keys - visited|
    decreases |byId.Keys - visited|
  {
    if current.None? || ParentLink(current.value).None? || current.value.id in visited then 0
    else
      var id := current.value.id;
      assert byId.Keys - visited == (byId.Keys - (visited + {id})) + {id};
      1 + Climb(byId, Lookup(byId, ParentLink(current.value).value), visited + {id})
  }

  /** The hierarchy degree of `id`: 1 for a contact without a parent, plus one per parent link followed. */
  function Degree(byId: map<string, Contact>, id: string): (d: nat)
    requires KeyedById(byId)
    ensures 1 <= d <= 1 + |byId|
  {
    1 + Climb(byId, Lookup(byId, id), {})
  }

  /** The contacts the walk from `current` passes through (each before its parent link is followed). */
  ghost predicate OnWalk(byId: map<string, Contact>, current: Option<Contact>, visited: set<string>, x: string)
    requires KeyedById(byId) && visited <= byId.Keys
    requires current.Some? ==> current.value.id in byId
    decreases |byId.Keys - visited|
  {
    if current.None? || ParentLink(current.value).None? || current.value.id in visited then false
    else
      var id := current.value.id;
      assert byId.Keys - visited == (byId.Keys - (visited + {id})) + {id};
      id == x || OnWalk(byId, Lookup(byId, ParentLink(current.value).value), visited + {id}, x)
  }

  /** Marking an id the walk never reaches as visited does not change the walk. */
  lemma {:induction false} ClimbIgnoresUnreached(byId: map<string, Contact>, current: Option<Contact>, visited: set<string>, x: string)
    requires KeyedById(byId) && visited <= byId.Keys && x in byId
    requires current.Some? ==> current.value.id in byId
    requires !OnWalk(byId, current, visited, x)
    ensures Climb(byId, current, visited + {x}) == Climb(byId, current, visited)
    decreases |byId.Keys - visited|
  {
    if current.Some? && ParentLink(current.value).Some? && current.value.id !in visited {
      var id := current.value.id;
      assert byId.Keys - visited == (byId.Keys - (visited + {id})) + {id};
      var next := Lookup(byId, ParentLink(current.value).value);
      ClimbIgnoresUnreached(byId, next, visited + {id}, x);
      assert visited + {x} + {id} == visited + {id} + {x};
    }
  }

  /** A contact without a parent link has degree 1. */
  lemma RootDegree(byId: map<string, Contact>, c: Contact)
    requires KeyedById(byId) && c.id in byId && byId[c.id] == c
    requires ParentLink(c).None?
    ensures Degree(byId, c.id) == 1
  {
  }

  /** A contact whose parent id is not in the list has degree 2: the walk ends at the missing parent. */
  lemma MissingParentDegree(byId: map<string, Contact>, c: Contact)
    requires KeyedById(byId) && c.id in byId && byId[c.id] == c
    requires ParentLink(c).Some? && ParentLink(c).value !in byId
    ensures Degree(byId, c.id) == 2
  {
    assert Lookup(byId, ParentLink(c).value).None?;
    assert Climb(byId, Some(c), {}) == 1 + Climb(byId, None, {c.id});
  }

  /** Following one parent link adds one, as long as the parent's own walk does not come back to the contact. */
  lemma DegreeStep(byId: map<string, Contact>, c: Contact)
    requires KeyedById(byId) && c.id in byId && byId[c.id] == c
    requires ParentLink(c).Some?
    requires !OnWalk(byId, Lookup(byId, ParentLink(c).value), {}, c.id)
    ensures Degree(byId, c.id) == 1 + Degree(byId, ParentLink(c).value)
  {
    var parent := Lookup(byId, ParentLink(c).value);
    ClimbIgnoresUnreached(byId, parent, {}, c.id);
    assert {} + {c.id} == {c.id};
  }

  /** Two contacts that are each other's parent: the guard stops the walk after both, at the bound 1 + n. */
  lemma MutualParentsDegree(a: Contact, b: Contact)
    requires a.id != b.id && a.parentContactId == Some(b.id) && b.parentContactId == Some(a.id)
    requires a.id != "" && b.id != ""
    ensures Degree(ById([a, b]), a.id) == 3 == 1 + |ById([a, b])|
  {
    assert [a][..0] == [];
    assert ById([a]) == map[a.id := a];
    assert [a, b][..1] == [a];
    var m := ById([a, b]);
    assert m == map[a.id := a][b.id := b];
    assert m.Keys == {a.id, b.id};
    ClimbStep(m, a, {});
    ClimbStep(m, b, {a.id});
    assert Climb(m, Some(a), {a.id, b.id}) == 0;
  }

  /** One step of the walk: a contact seen for the first time whose parent link is set adds one. */
  lemma ClimbStep(byId: map<string, Contact>, here: Contact, visited: set<string>)
    requires KeyedById(byId) && visited <= byId.Keys && here.id in byId
    requires ParentLink(here).Some? && here.id !in visited
    ensures Climb(byId, Some(here), visited) == 1 + Climb(byId, Lookup(byId, ParentLink(here).value), visited + {here.id})
    ensures |byId.Keys - (visited + {here.id})| < |byId.Keys - visited|
  {
    assert byId.Keys - visited == (byId.Keys - (visited + {here.id})) + {here.id};
  }

  /** Every memoised degree is the degree of its id. */
  predicate CacheAgrees(byId: map<string, Contact>, cache: map<string, nat>)
    requires KeyedById(byId)
  {
    forall k :: k in cache ==> cache[k] == Degree(byId, k)
  }

  /** Memoising a degree keeps the memo correct. */
  lemma CacheExtends(byId: map<string, Contact>, cache: map<string, nat>, id: string)
    requires KeyedById(byId) && CacheAgrees(byId, cache)
    ensures CacheAgrees(byId, cache[id := Degree(byId, id)])
  {
  }

  /** `getDegree` with its memo: a memoised degree is returned as it is, otherwise the walk runs and is memoised. */
  method GetDegree(byId: map<string, Contact>, cache: map<string, nat>, id: string)
    returns (degree: nat, cache': map<string, nat>)
    requires KeyedById(byId)
    requires CacheAgrees(byId, cache)
    ensures degree == Degree(byId, id)
    ensures cache' == cache[id := degree] && CacheAgrees(byId, cache')
  {
    if id in cache {
      assert cache[id := cache[id]] == cache;
      return cache[id], cache;
    }
    degree := WalkDegree(byId, id);
    cache' := cache[id := degree];
    CacheExtends(byId, cache, id);
  }

  /**
   * The parent walk of `getDegree`: count the contacts passed, following parent links, and stop at a
   * contact without a link, at a link to no contact, or at a contact already passed.
   */
  method WalkDegree(byId: map<string, Contact>, id: string) returns (degree: nat)
    requires KeyedById(byId)
    ensures degree == Degree(byId, id)
  {
    var visited: set<string> := {};
    var current := Lookup(byId, id);
    degree := 1;
    while current.Some? && ParentLink(current.value).Some?
      invariant visited <= byId.Keys
      invariant current.Some? ==> current.value.id in byId
      invariant degree == 1 + |visited|
      invariant degree + Climb(byId, current, visited) == Degree(byId, id)
      decreases |byId.Keys - visited|
    {
      var here := current.value;
      if here.id in visited {
        break;
      }
      ClimbStep(byId, here, visited);
      visited := visited + {here.id};
      degree := degree + 1;
      current := Lookup(byId, ParentLink(here).value);
    }
  }

  /** The `forEach` that fills the id map. */
  method BuildById(contacts: seq<Contact>) returns (byId: map<string, Contact>)
    ensures byId == ById(contacts)
  {
    byId := map[];
    var i := 0;
    while i < |contacts|
      invariant 0 <= i <= |contacts|
      invariant byId == ById(contacts[..i])
    {
      assert contacts[..i + 1][..i] == contacts[..i];
      byId := byId[contacts[i].id := contacts[i]];
      i := i + 1;
    }
    assert contacts[..i] == contacts;
  }

  /** The `forEach` that records `getDegree(c.id)` for every listed contact, sharing one memo. */
  method DegreesOf(contacts: seq<Contact>, byId: map<string, Contact>) returns (out: map<string, nat>)
    requires KeyedById(byId)
    requires forall i :: 0 <= i < |contacts| ==> contacts[i].id in byId
    ensures forall i :: 0 <= i < |contacts| ==> contacts[i].id in out
    ensures forall k :: k in out ==> k in byId && out[k] == Degree(byId, k)
  {
    var cache: map<string, nat> := map[];
    out := map[];
    var i := 0;
    while i < |contacts|
      invariant 0 <= i <= |contacts|
      invariant CacheAgrees(byId, cache)
      invariant forall j :: 0 <= j < i ==> contacts[j].id in out
      invariant out.Keys <= byId.Keys && CacheAgrees(byId, out)
    {
      var d;
      d, cache := GetDegree(byId, cache, contacts[i].id);
      out := out[contacts[i].id := d];
      i := i + 1;
    }
  }

  /** `degreeMap`: every listed contact gets its degree, between 1 and one more than the number of contacts. */
  method DegreeMap(contacts: seq<Contact>) returns (out: map<string, nat>)
    ensures forall i :: 0 <= i < |contacts| ==> contacts[i].id in out
    ensures forall k :: k in out ==> k in ById(contacts)
    ensures forall k :: k in out ==> out[k] == Degree(ById(contacts), k) && 1 <= out[k] <= 1 + |contacts|
  {
    var byId := BuildById(contacts);
    ByIdHasEveryId(contacts);
    ByIdOnlyListed(contacts);
    out := DegreesOf(contacts, byId);
  }

  /** `degreeMap[contact.id] ?? 1`: the level a card shows, 1 when the contact has no entry. */
  function CardDegree(degrees: map<string, nat>, id: string): (level: nat)
    ensures id in degrees ==> level == degrees[id]
    ensures id !in degrees ==> level == 1
  {
    if id in degrees then degrees[id] else 1
  }
}
