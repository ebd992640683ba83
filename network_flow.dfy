/**
 * src/components/network/NetworkFlow.tsx: the hierarchical layout of the contact graph. A children
 * map is built from the parent links, `assign` places the tree rooted at "admin" depth first
 * (leaves get consecutive rows, an inner node sits at the mean of its children), the positions are
 * shifted so the smallest coordinate is 50, and one edge is drawn per contact.
 */
module NetworkFlow {
  import opened Wrappers
  import opened Seqs
  import opened Contacts

  /** The id of the synthetic root node. */
  const Admin: string := "admin"
  /** Horizontal gap per depth. */
  const Dx: real := 220.0
  /** Vertical gap between leaves. */
  const Dy: real := 100.0
  /** The margin the offsets leave around the drawing. */
  const Margin: real := 50.0

  datatype Point = Point(x: real, y: real)

  // ---------------------------------------------------------------- children map

  /** The key a contact is filed under: its parent id, or "admin" when it has none. */
  function ParentKey(c: Contact): string {
    if ParentLink(c).Some? then ParentLink(c).value else Admin
  }

  /** The ids of a list of contacts, in order. */
  function Ids(cs: seq<Contact>): (r: seq<string>)
    ensures |r| == |cs|
    ensures forall i :: 0 <= i < |cs| ==> r[i] == cs[i].id
  {
    if cs == [] then [] else [cs[0].id] + Ids(cs[1..])
  }

  /** One step of the `forEach`: file `c` under its parent key and make sure `c` has an entry of its own. */
  function FileUnder(children: map<string, seq<string>>, c: Contact): map<string, seq<string>> {
    var parent := ParentKey(c);
    var withParent := if parent in children then children else children[parent := []];
    var pushed := withParent[parent := withParent[parent] + [c.id]];
    if c.id in pushed then pushed else pushed[c.id := []]
  }

  /** The children map after the first `|cs|` contacts have been filed. */
  function Children(cs: seq<Contact>): map<string, seq<string>> {
    if cs == [] then map[Admin := []]
    else FileUnder(Children(cs[..|cs| - 1]), cs[|cs| - 1])
  }

  /** `children.get(id) || []`. */
  function KidsOf(children: map<string, seq<string>>, id: string): seq<string> {
    if id in children then children[id] else []
  }

  /** Reference definition: the ids of the contacts filed under `key`, in input order. */
  function ChildIds(cs: seq<Contact>, key: string): seq<string> {
    Ids(Filter(cs, (c: Contact) => ParentKey(c) == key))
  }

  lemma {:induction false} IdsAppend(a: seq<Contact>, b: seq<Contact>)
    ensures Ids(a + b) == Ids(a) + Ids(b)
  {
  }

  lemma {:induction false} FilterAppendOne(cs: seq<Contact>, key: string)
    requires cs != []
    ensures var p := (c: Contact) => ParentKey(c) == key;
      Filter(cs, p) == Filter(cs[..|cs| - 1], p) + (if p(cs[|cs| - 1]) then [cs[|cs| - 1]] else [])
    decreases |cs|
  {
    var p := (c: Contact) => ParentKey(c) == key;
    if |cs| > 1 {
      FilterAppendOne(cs[1..], key);
      assert cs[1..][..|cs[1..]| - 1] == cs[..|cs| - 1][1..];
    }
  }

  /** Filing one contact appends its id to the list of its parent key and to no other list. */
  lemma KidsOfFileUnder(children: map<string, seq<string>>, c: Contact, key: string)
    ensures KidsOf(FileUnder(children, c), key) == KidsOf(children, key) + (if ParentKey(c) == key then [c.id] else [])
  {
  }

  /** Every contact is listed under its parent key, in input order, and under no other key. */
  lemma {:induction false} ChildrenListsInOrder(cs: seq<Contact>, key: string)
    ensures KidsOf(Children(cs), key) == ChildIds(cs, key)
  {
    if cs != [] {
      var init := cs[..|cs| - 1];
      var last := cs[|cs| - 1];
      var p := (c: Contact) => ParentKey(c) == key;
      ChildrenListsInOrder(init, key);
      KidsOfFileUnder(Children(init), last, key);
      FilterAppendOne(cs, key);
      IdsAppend(Filter(init, p), if p(last) then [last] else []);
    }
  }

  /** The map has an entry for "admin" and for every contact id. */
  lemma {:induction false} ChildrenKeys(cs: seq<Contact>)
    ensures Admin in Children(cs)
    ensures forall i :: 0 <= i < |cs| ==> cs[i].id in Children(cs)
  {
    if cs != [] {
      var init := cs[..|cs| - 1];
      ChildrenKeys(init);
      assert forall i :: 0 <= i < |init| ==> init[i] == cs[i];
    }
  }

  /** The ids of the contacts are pairwise distinct and none is "admin". */
  predicate WellKeyed(cs: seq<Contact>) {
    && (forall i, j :: 0 <= i < j < |cs| ==> cs[i].id != cs[j].id)
    && (forall i :: 0 <= i < |cs| ==> cs[i].id != Admin)
  }

  /**
   * A children map that is a forest under "admin": every listed kid has an entry of its own, is not
   * "admin", and is listed under one key only.
   */
  ghost predicate Forest(children: map<string, seq<string>>) {
    && Admin in children
    && (forall p, kid :: p in children && kid in children[p] ==> kid in children && kid != Admin)
    && (forall p, q, kid :: p in children && q in children && kid in children[p] && kid in children[q] ==> p == q)
  }

  /** A listed kid is the id of a contact filed under that key. */
  lemma ListedKid(cs: seq<Contact>, p: string, kid: string)
    requires kid in KidsOf(Children(cs), p)
    ensures exists i :: 0 <= i < |cs| && cs[i].id == kid && ParentKey(cs[i]) == p
  {
    ChildrenListsInOrder(cs, p);
    var f := Filter(cs, (c: Contact) => ParentKey(c) == p);
    var j :| 0 <= j < |f| && f[j].id == kid;
    assert f[j] in cs;
  }

  /** With well-keyed contacts the children map is a forest. */
  lemma ChildrenForest(cs: seq<Contact>)
    requires WellKeyed(cs)
    ensures Forest(Children(cs))
  {
    ChildrenKeys(cs);
    var children := Children(cs);
    forall p, kid | p in children && kid in children[p]
      ensures kid in children && kid != Admin
    {
      ListedKid(cs, p, kid);
    }
    forall p, q, kid | p in children && q in children && kid in children[p] && kid in children[q]
      ensures p == q
    {
      ListedKid(cs, p, kid);
      ListedKid(cs, q, kid);
    }
  }

  /**
   * Without the distinct-ids condition the map is not a forest: a parentless contact whose id is
   * "admin" is listed under "admin" itself, so `assign("admin", 0)` calls `assign("admin", 1)`,
   * and so on without end.
   */
  lemma AdminContactListsItself(c: Contact)
    requires c.id == Admin && ParentLink(c).None?
    ensures Admin in KidsOf(Children([c]), Admin)
    ensures !WellKeyed([c]) && !Forest(Children([c]))
  {
    assert Children([c]) == FileUnder(map[Admin := []], c);
  }

  /**
   * The same with a repeated id: a root contact `a` and a second contact `b` with `a`'s id filed
   * under it. The id is listed under "admin" and under itself, so `assign` reaches it and then
   * calls itself on it forever.
   */
  lemma RepeatedIdListsItself(a: Contact, b: Contact)
    requires a.id != Admin && a.id == b.id && ParentLink(a).None? && ParentLink(b) == Some(a.id)
    ensures var children := Children([a, b]);
      a.id in KidsOf(children, Admin) && a.id in KidsOf(children, a.id)
    ensures !WellKeyed([a, b]) && !Forest(Children([a, b]))
  {
    assert [a, b][..1] == [a];
    assert Children([a]) == FileUnder(map[Admin := []], a);
    assert Children([a, b]) == FileUnder(Children([a]), b);
  }

  /** The `forEach` that builds the children map. */
  method BuildChildren(contacts: seq<Contact>) returns (children: map<string, seq<string>>)
    ensures children == Children(contacts)
  {
    children := map[Admin := []];
    var i := 0;
    while i < |contacts|
      invariant 0 <= i <= |contacts|
      invariant children == Children(contacts[..i])
    {
      var c := contacts[i];
      var parent := ParentKey(c);
      if parent !in children {
        children := children[parent := []];
      }
      children := children[parent := children[parent] + [c.id]];
      if c.id !in children {
        children := children[c.id := []];
      }
      assert contacts[..i + 1][..i] == contacts[..i];
      i := i + 1;
    }
    assert contacts[..i] == contacts;
  }

  // ---------------------------------------------------------------- paths from admin

  /** A path of parent-to-child steps from "admin" through distinct entries of the map. */
  ghost predicate IsPath(children: map<string, seq<string>>, path: seq<string>) {
    && |path| >= 1
    && path[0] == Admin
    && (forall i :: 0 <= i < |path| ==> path[i] in children)
    && (forall i, j :: 0 <= i < j < |path| ==> path[i] != path[j])
    && (forall i :: 0 < i < |path| ==> path[i] in children[path[i - 1]])
  }

  lemma {:induction false} DistinctCard(s: seq<string>)
    requires forall i, j :: 0 <= i < j < |s| ==> s[i] != s[j]
    ensures |set i | 0 <= i < |s| :: s[i]| == |s|
  {
    if s != [] {
      var init := s[..|s| - 1];
      DistinctCard(init);
      assert (set i | 0 <= i < |s| :: s[i]) == (set i | 0 <= i < |init| :: init[i]) + {s[|s| - 1]};
    }
  }

  /** A path never has more entries than the map has keys. */
  lemma PathBound(children: map<string, seq<string>>, path: seq<string>)
    requires IsPath(children, path)
    ensures |path| <= |children.Keys|
  {
    DistinctCard(path);
    var elems := set i | 0 <= i < |path| :: path[i];
    assert elems <= children.Keys;
    assert children.Keys == elems + (children.Keys - elems);
    assert elems * (children.Keys - elems) == {};
  }

  /** A forest has no cycle through "admin": a kid of the last node is never already on the path. */
  lemma PathExtend(children: map<string, seq<string>>, path: seq<string>, kid: string)
    requires Forest(children) && IsPath(children, path)
    requires kid in children[path[|path| - 1]]
    ensures IsPath(children, path + [kid])
    ensures |path + [kid]| <= |children.Keys|
  {
    var last := |path| - 1;
    forall j | 0 <= j < |path|
      ensures path[j] != kid
    {
      if j > 0 {
        assert path[j - 1] != path[last];
        assert path[j] in children[path[j - 1]];
      }
    }
    PathBound(children, path + [kid]);
  }

  // ---------------------------------------------------------------- the placement

  /** The result of `assign` on one subtree: the returned y, the positions it set, the next free row. */
  datatype Placement = Placement(y: real, placed: map<string, Point>, nextY: nat)

  /** The results of `kids.map(kid => assign(kid, depth))`. */
  datatype Placements = Placements(ys: seq<real>, placed: map<string, Point>, nextY: nat)

  /** `childYs.reduce((a, b) => a + b, 0)`. */
  function Sum(ys: seq<real>): real {
    if ys == [] then 0.0 else Sum(ys[..|ys| - 1]) + ys[|ys| - 1]
  }

  /** A point placed at depth `depth` or deeper, in the rows `lo` to `hi - 1`. */
  predicate InBand(p: Point, depth: nat, lo: nat, hi: nat) {
    p.x >= depth as real * Dx && lo as real * Dy <= p.y <= (hi - 1) as real * Dy
  }

  lemma {:induction false} SumBounds(ys: seq<real>, lo: real, hi: real)
    requires forall i :: 0 <= i < |ys| ==> lo <= ys[i] <= hi
    ensures |ys| as real * lo <= Sum(ys) <= |ys| as real * hi
  {
    if ys != [] {
      SumBounds(ys[..|ys| - 1], lo, hi);
    }
  }

  /** The mean of values within a band stays within the band. */
  lemma MeanBounds(ys: seq<real>, lo: real, hi: real)
    requires ys != []
    requires forall i :: 0 <= i < |ys| ==> lo <= ys[i] <= hi
    ensures lo <= Sum(ys) / |ys| as real <= hi
  {
    SumBounds(ys, lo, hi);
    DivideWithin(Sum(ys), |ys| as real, lo, hi);
  }

  lemma DivideWithin(x: real, n: real, lo: real, hi: real)
    requires n > 0.0 && n * lo <= x <= n * hi
    ensures lo <= x / n <= hi
  {
  }

  /**
   * `assign(id, depth)` as a function of the next free row: a leaf takes that row, an inner node sits
   * at the mean of its children; every point set lies at its depth or deeper and within the rows
   * the subtree used, and the subtree uses at least one row.
   */
  function Place(children: map<string, seq<string>>, id: string, depth: nat, nextY: nat, path: seq<string>): (r: Placement)
    requires Forest(children) && IsPath(children, path) && path[|path| - 1] == id
    ensures r.nextY > nextY
    ensures nextY as real * Dy <= r.y <= (r.nextY - 1) as real * Dy
    ensures id in r.placed && r.placed[id] == Point(depth as real * Dx, r.y)
    ensures KidsOf(children, id) == [] ==> r.y == nextY as real * Dy && r.nextY == nextY + 1
    decreases |children.Keys| - |path|, 1, 0
  {
    PathBound(children, path);
    var kids := KidsOf(children, id);
    if kids == [] then
      Placement(nextY as real * Dy, map[id := Point(depth as real * Dx, nextY as real * Dy)], nextY + 1)
    else
      var all := PlaceAll(children, kids, depth + 1, nextY, path);
      MeanBounds(all.ys, nextY as real * Dy, (all.nextY - 1) as real * Dy);
      var y := Sum(all.ys) / |all.ys| as real;
      Placement(y, all.placed[id := Point(depth as real * Dx, y)], all.nextY)
  }

  /** `kids.map(kid => assign(kid, depth))`, left to right, each kid starting at the row the previous one left. */
  function PlaceAll(children: map<string, seq<string>>, kids: seq<string>, depth: nat, nextY: nat, path: seq<string>): (r: Placements)
    requires Forest(children) && IsPath(children, path)
    requires forall i :: 0 <= i < |kids| ==> kids[i] in children[path[|path| - 1]]
    ensures |r.ys| == |kids| && r.nextY >= nextY + |kids|
    ensures forall i :: 0 <= i < |kids| ==> nextY as real * Dy <= r.ys[i] <= (r.nextY - 1) as real * Dy
    decreases |children.Keys| - |path|, 0, |kids|
  {
    PathBound(children, path);
    if kids == [] then Placements([], map[], nextY)
    else
      var front := PlaceAll(children, kids[..|kids| - 1], depth, nextY, path);
      var kid := kids[|kids| - 1];
      PathExtend(children, path, kid);
      var p := Place(children, kid, depth, front.nextY, path + [kid]);
      Placements(front.ys + [p.y], front.placed + p.placed, p.nextY)
  }

  /** `k` ends some path from "admin". */
  ghost predicate Reachable(children: map<string, seq<string>>, k: string) {
    exists path :: IsPath(children, path) && path[|path| - 1] == k
  }

  /**
   * Every point `assign` sets belongs to an id reachable from "admin", lies at its depth or deeper
   * and within the rows its subtree used.
   */
  lemma {:induction false} PlaceInBand(children: map<string, seq<string>>, id: string, depth: nat, nextY: nat, path: seq<string>)
    requires Forest(children) && IsPath(children, path) && path[|path| - 1] == id
    ensures var r := Place(children, id, depth, nextY, path);
      forall k :: k in r.placed ==> k in children && Reachable(children, k) && InBand(r.placed[k], depth, nextY, r.nextY)
    decreases |children.Keys| - |path|, 1, 0
  {
    PathBound(children, path);
    var kids := KidsOf(children, id);
    assert Reachable(children, id);
    if kids != [] {
      PlaceAllInBand(children, kids, depth + 1, nextY, path);
    }
  }

  lemma {:induction false} PlaceAllInBand(children: map<string, seq<string>>, kids: seq<string>, depth: nat, nextY: nat, path: seq<string>)
    requires Forest(children) && IsPath(children, path)
    requires forall i :: 0 <= i < |kids| ==> kids[i] in children[path[|path| - 1]]
    ensures var r := PlaceAll(children, kids, depth, nextY, path);
      forall k :: k in r.placed ==> k in children && Reachable(children, k) && InBand(r.placed[k], depth, nextY, r.nextY)
    decreases |children.Keys| - |path|, 0, |kids|
  {
    PathBound(children, path);
    if kids != [] {
      var front := PlaceAll(children, kids[..|kids| - 1], depth, nextY, path);
      var kid := kids[|kids| - 1];
      PathExtend(children, path, kid);
      PlaceAllInBand(children, kids[..|kids| - 1], depth, nextY, path);
      PlaceInBand(children, kid, depth, front.nextY, path + [kid]);
    }
  }

  lemma MergeAssoc(a: map<string, Point>, b: map<string, Point>, c: map<string, Point>)
    ensures a + (b + c) == (a + b) + c
  {
  }

  lemma MergeUpdate(a: map<string, Point>, b: map<string, Point>, k: string, v: Point)
    ensures a + b[k := v] == (a + b)[k := v]
  {
  }

  /** The mutable state `assign` closes over: the children map, the positions set so far and the next free row. */
  class Layout {
    const children: map<string, seq<string>>
    var positions: map<string, Point>
    var nextY: nat

    constructor (children: map<string, seq<string>>)
      ensures this.children == children && positions == map[] && nextY == 0
    {
      this.children := children;
      positions := map[];
      nextY := 0;
    }

    /** `assign(id, depth)`: places the subtree under `id` and returns the y of `id`. */
    method Assign(id: string, depth: nat, ghost path: seq<string>) returns (y: real)
      requires Forest(children) && IsPath(children, path) && path[|path| - 1] == id
      modifies this
      ensures var r := Place(children, id, depth, old(nextY), path);
        y == r.y && nextY == r.nextY && positions == old(positions) + r.placed
      decreases |children.Keys| - |path|, 1
    {
      PathBound(children, path);
      var kids := KidsOf(children, id);
      if |kids| == 0 {
        y := nextY as real * Dy;
        nextY := nextY + 1;
        positions := positions[id := Point(depth as real * Dx, y)];
        return;
      }
      var childYs := AssignKids(kids, depth + 1, path);
      ghost var all := PlaceAll(children, kids, depth + 1, old(nextY), path);
      y := Sum(childYs) / |childYs| as real;
      MergeUpdate(old(positions), all.placed, id, Point(depth as real * Dx, y));
      positions := positions[id := Point(depth as real * Dx, y)];
    }

    /** `kids.map(kid => assign(kid, depth))`: the kids in order, each starting at the row the previous one left. */
    method AssignKids(kids: seq<string>, depth: nat, ghost path: seq<string>) returns (childYs: seq<real>)
      requires Forest(children) && IsPath(children, path)
      requires forall i :: 0 <= i < |kids| ==> kids[i] in children[path[|path| - 1]]
      modifies this
      ensures var r := PlaceAll(children, kids, depth, old(nextY), path);
        childYs == r.ys && nextY == r.nextY && positions == old(positions) + r.placed
      decreases |children.Keys| - |path|, 0
    {
      PathBound(children, path);
      childYs := [];
      var i := 0;
      while i < |kids|
        invariant 0 <= i <= |kids|
        invariant var r := PlaceAll(children, kids[..i], depth, old(nextY), path);
          childYs == r.ys && nextY == r.nextY && positions == old(positions) + r.placed
      {
        assert kids[..i + 1][..i] == kids[..i];
        PathExtend(children, path, kids[i]);
        ghost var front := PlaceAll(children, kids[..i], depth, old(nextY), path);
        var kidY := Assign(kids[i], depth, path + [kids[i]]);
        ghost var p := Place(children, kids[i], depth, front.nextY, path + [kids[i]]);
        MergeAssoc(old(positions), front.placed, p.placed);
        assert PlaceAll(children, kids[..i + 1], depth, old(nextY), path)
          == Placements(front.ys + [p.y], front.placed + p.placed, p.nextY);
        childYs := childYs + [kidY];
        i := i + 1;
      }
      assert kids[..i] == kids;
    }
  }

  /** A kid in `detached` is only ever listed under keys in `detached`. */
  ghost predicate ClosedUnderParents(children: map<string, seq<string>>, detached: set<string>) {
    forall p, kid :: p in children && kid in children[p] && kid in detached ==> p in detached
  }

  /**
   * A set of ids that is closed under parents (a kid in the set is only listed under keys in the set)
   * and does not hold "admin" is never reached: a parent cycle detached from "admin" is not placed.
   */
  lemma DetachedUnreachable(children: map<string, seq<string>>, detached: set<string>, k: string)
    requires Admin !in detached && k in detached
    requires ClosedUnderParents(children, detached)
    ensures !Reachable(children, k)
  {
    forall path | IsPath(children, path)
      ensures path[|path| - 1] != k
    {
      PathAvoids(children, detached, path, |path| - 1);
    }
  }

  /** Two contacts that are each other's parent are never reached from "admin", so neither is placed. */
  lemma MutualParentsUnreached(cs: seq<Contact>, i: nat, j: nat)
    requires WellKeyed(cs) && i < |cs| && j < |cs|
    requires ParentLink(cs[i]) == Some(cs[j].id) && ParentLink(cs[j]) == Some(cs[i].id)
    ensures !Reachable(Children(cs), cs[i].id) && !Reachable(Children(cs), cs[j].id)
  {
    var detached := {cs[i].id, cs[j].id};
    MutualParentsClosed(cs, i, j);
    DetachedUnreachable(Children(cs), detached, cs[i].id);
    DetachedUnreachable(Children(cs), detached, cs[j].id);
  }

  lemma MutualParentsClosed(cs: seq<Contact>, i: nat, j: nat)
    requires WellKeyed(cs) && i < |cs| && j < |cs|
    requires ParentLink(cs[i]) == Some(cs[j].id) && ParentLink(cs[j]) == Some(cs[i].id)
    ensures ClosedUnderParents(Children(cs), {cs[i].id, cs[j].id})
  {
    var children := Children(cs);
    forall p, kid | p in children && kid in children[p] && kid in {cs[i].id, cs[j].id}
      ensures p in {cs[i].id, cs[j].id}
    {
      ListedKid(cs, p, kid);
      var m :| 0 <= m < |cs| && cs[m].id == kid && ParentKey(cs[m]) == p;
      SameIdSameContact(cs, m, if kid == cs[i].id then i else j);
    }
  }

  lemma SameIdSameContact(cs: seq<Contact>, m: nat, n: nat)
    requires WellKeyed(cs) && m < |cs| && n < |cs| && cs[m].id == cs[n].id
    ensures m == n
  {
  }

  lemma {:induction false} PathAvoids(children: map<string, seq<string>>, detached: set<string>, path: seq<string>, i: nat)
    requires Admin !in detached && IsPath(children, path) && i < |path|
    requires ClosedUnderParents(children, detached)
    ensures path[i] !in detached
  {
    if i > 0 {
      PathAvoids(children, detached, path, i - 1);
      assert path[i] in children[path[i - 1]];
    }
  }

  /** `assign("admin", 0)` on the children map of the contacts: the positions it leaves behind. */
  method PlaceContacts(contacts: seq<Contact>) returns (positions: map<string, Point>)
    requires WellKeyed(contacts)
    ensures var children := Children(contacts);
      Forest(children) && positions == Place(children, Admin, 0, 0, [Admin]).placed
    ensures Admin in positions && positions[Admin].x == 0.0
    ensures forall k :: k in positions ==>
      Reachable(Children(contacts), k) && positions[k].x >= 0.0 && positions[k].y >= 0.0
  {
    var children := BuildChildren(contacts);
    ChildrenForest(contacts);
    var layout := new Layout(children);
    var _ := layout.Assign(Admin, 0, [Admin]);
    positions := layout.positions;
    PlaceInBand(children, Admin, 0, 0, [Admin]);
  }

  // ---------------------------------------------------------------- offsets, nodes and edges

  /** `Math.min(m, v)` where `None` stands for the initial `Infinity`. */
  function MinWith(m: Option<real>, v: real): real {
    if m.None? || v < m.value then v else m.value
  }

  /**
   * The `forEach` over the positions that finds `minX` and `minY`, and the offsets `50 - min`
   * (with 0 for a minimum that stayed infinite): after the shift the smallest placed x and the
   * smallest placed y are both 50 and no placed coordinate is below 50.
   */
  method Offsets(positions: map<string, Point>) returns (offset: Point)
    ensures positions == map[] ==> offset == Point(Margin, Margin)
    ensures forall k :: k in positions ==> positions[k].x + offset.x >= Margin && positions[k].y + offset.y >= Margin
    ensures positions != map[] ==> exists k :: k in positions && positions[k].x + offset.x == Margin
    ensures positions != map[] ==> exists k :: k in positions && positions[k].y + offset.y == Margin
  {
    var minX: Option<real> := None;
    var minY: Option<real> := None;
    var rest := positions.Keys;
    while rest != {}
      invariant rest <= positions.Keys
      invariant minX.None? <==> rest == positions.Keys
      invariant minY.None? <==> rest == positions.Keys
      invariant forall k :: k in positions && k !in rest ==> minX.value <= positions[k].x && minY.value <= positions[k].y
      invariant minX.Some? ==> exists k :: k in positions && k !in rest && positions[k].x == minX.value
      invariant minY.Some? ==> exists k :: k in positions && k !in rest && positions[k].y == minY.value
      decreases rest
    {
      var k :| k in rest;
      minX := Some(MinWith(minX, positions[k].x));
      minY := Some(MinWith(minY, positions[k].y));
      rest := rest - {k};
    }
    offset := Point(Margin - minX.GetOr(0.0), Margin - minY.GetOr(0.0));
  }

  /** A node of the flow chart: its id and its drawn position. */
  datatype FlowNode = FlowNode(id: string, position: Point)

  function Shift(p: Point, offset: Point): Point {
    Point(p.x + offset.x, p.y + offset.y)
  }

  /** `positions.get(id) || fallback`. */
  function PositionOr(positions: map<string, Point>, id: string, fallback: Point): Point {
    if id in positions then positions[id] else fallback
  }

  /** `contacts.map(...)`: a node per contact at its shifted position, (220, 0) before the shift when it was not placed. */
  function ContactNodes(contacts: seq<Contact>, positions: map<string, Point>, offset: Point): (r: seq<FlowNode>)
    ensures |r| == |contacts|
    ensures forall i :: 0 <= i < |contacts| ==>
      r[i] == FlowNode(contacts[i].id, Shift(PositionOr(positions, contacts[i].id, Point(Dx, 0.0)), offset))
  {
    if contacts == [] then []
    else
      [FlowNode(contacts[0].id, Shift(PositionOr(positions, contacts[0].id, Point(Dx, 0.0)), offset))]
        + ContactNodes(contacts[1..], positions, offset)
  }

  /** `[adminNode, ...contactNodes]`: the root first, at (0, 0) before the shift when it was not placed. */
  function Nodes(contacts: seq<Contact>, positions: map<string, Point>, offset: Point): seq<FlowNode> {
    [FlowNode(Admin, Shift(PositionOr(positions, Admin, Point(0.0, 0.0)), offset))]
      + ContactNodes(contacts, positions, offset)
  }

  /**
   * The `nodes` memo: admin first, then one node per contact in input order. The root is drawn at
   * x = 50, every placed node at or beyond the margin, and a contact the layout did not reach at
   * (220, 0) shifted by the offsets.
   */
  method FlowNodes(contacts: seq<Contact>) returns (nodes: seq<FlowNode>)
    requires WellKeyed(contacts)
    ensures |nodes| == |contacts| + 1
    ensures nodes[0].id == Admin && nodes[0].position.x == Margin
    ensures forall i :: 0 <= i < |contacts| ==> nodes[i + 1].id == contacts[i].id
    ensures forall i :: 0 <= i < |contacts| && !Reachable(Children(contacts), contacts[i].id) ==>
      nodes[i + 1].position.x == Dx + Margin && nodes[i + 1].position.y <= Margin
    ensures forall i :: 0 <= i < |nodes| ==> nodes[i].position.x >= Margin
  {
    var positions := PlaceContacts(contacts);
    var offset := Offsets(positions);
    assert offset.x == Margin by {
      var k :| k in positions && positions[k].x + offset.x == Margin;
    }
    assert offset.y <= Margin by {
      var k :| k in positions && positions[k].y + offset.y == Margin;
    }
    nodes := Nodes(contacts, positions, offset);
    NodesPlacement(contacts, positions, offset);
  }

  lemma NodesPlacement(contacts: seq<Contact>, positions: map<string, Point>, offset: Point)
    requires Admin in positions && positions[Admin].x == 0.0 && offset.x == Margin && offset.y <= Margin
    requires forall k :: k in positions ==> positions[k].x + offset.x >= Margin && positions[k].y + offset.y >= Margin
    ensures var nodes := Nodes(contacts, positions, offset);
      && |nodes| == |contacts| + 1
      && nodes[0].id == Admin && nodes[0].position.x == Margin
      && (forall i :: 0 <= i < |contacts| ==> nodes[i + 1].id == contacts[i].id)
      && (forall i :: 0 <= i < |contacts| && contacts[i].id in positions ==>
            nodes[i + 1].position.x >= Margin && nodes[i + 1].position.y >= Margin)
      && (forall i :: 0 <= i < |contacts| && contacts[i].id !in positions ==>
            nodes[i + 1].position.x == Dx + Margin && nodes[i + 1].position.y <= Margin)
      && (forall i :: 0 <= i < |nodes| ==> nodes[i].position.x >= Margin)
  {
  }

  /** An edge of the flow chart. */
  datatype FlowEdge = FlowEdge(id: string, source: string, target: string, animated: bool, stroke: Closeness)

  /** The edge drawn for one contact: from its parent (or "admin") to it, coloured and animated by closeness. */
  function EdgeOf(c: Contact): FlowEdge {
    var source := ParentKey(c);
    FlowEdge("e-" + source + "-" + c.id, source, c.id, c.relationshipDegree >= 8, DegreeColor(c.relationshipDegree))
  }

  /** The `edges` memo: one edge per contact, in input order. */
  function Edges(contacts: seq<Contact>): (r: seq<FlowEdge>)
    ensures |r| == |contacts|
    ensures forall i :: 0 <= i < |contacts| ==> r[i] == EdgeOf(contacts[i])
  {
    if contacts == [] then [] else [EdgeOf(contacts[0])] + Edges(contacts[1..])
  }

  /** An edge is animated exactly when it is drawn green, and it follows a link of the layout tree. */
  lemma EdgeFollowsTree(contacts: seq<Contact>, i: nat)
    requires i < |contacts|
    ensures var e := Edges(contacts)[i];
      && (e.animated <==> e.stroke == Green)
      && e.target in KidsOf(Children(contacts), e.source)
  {
    var c := contacts[i];
    assert Edges(contacts)[i] == EdgeOf(c);
    var source := ParentKey(c);
    ChildrenListsInOrder(contacts, source);
    var f := Filter(contacts, (d: Contact) => ParentKey(d) == source);
    assert c in f;
    var j :| 0 <= j < |f| && f[j] == c;
    assert Ids(f)[j] == c.id;
  }
}
