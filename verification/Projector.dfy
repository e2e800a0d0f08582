/** `SceneRenderProjector.project` (qso_vr_visualization/scene_render_projector.py). */
module Projector {
  // The lineage-guarded walk that gives every node a world matrix, and the split of the nodes into visible
  // and culled. Parent maps with cycles are included.

  import opened Common
  import opened ParentMap
  import opened Matrices
  import opened Ordering

  type Locals = map<string, Matrix>

  // ----- what the world matrix of a node means

  /** How many nodes stand on the climb from u to its root, u included. */
  ghost function Height(nodes: Parents, u: string): (n: nat)
    requires Rooted(nodes, u)
    ensures Up(nodes, u, n) == None && forall k: nat :: k < n ==> Up(nodes, u, k).Some?
  {
    var m: nat :| Up(nodes, u, m) == None;
    Least(nodes, u, m)
  }

  ghost function Least(nodes: Parents, u: string, m: nat): (n: nat)
    requires Up(nodes, u, m) == None
    ensures Up(nodes, u, n) == None && forall k: nat :: k < n ==> Up(nodes, u, k).Some?
  {
    if forall k: nat :: k < m ==> Up(nodes, u, k).Some? then m
    else
      var k: nat :| k < m && Up(nodes, u, k) == None;
      Least(nodes, u, k)
  }

  lemma ParentRooted(nodes: Parents, u: string)
    requires Rooted(nodes, u) && ParentOf(nodes, u).Some?
    ensures Rooted(nodes, ParentOf(nodes, u).value)
    ensures Height(nodes, ParentOf(nodes, u).value) < Height(nodes, u)
  {
    var p, n := ParentOf(nodes, u).value, Height(nodes, u);
    assert Up(nodes, u, 0).Some? && n > 0;
    assert Up(nodes, p, n - 1) == Up(nodes, u, n) == None;
  }

  ghost predicate LocalsFor(nodes: Parents, local: Locals) {
    nodes.Keys <= local.Keys
  }

  /** The product of the local matrices from u's root down to u. */
  ghost function World(nodes: Parents, local: Locals, u: string): Matrix
    requires Rooted(nodes, u) && u in nodes && LocalsFor(nodes, local)
    decreases Height(nodes, u)
  {
    Product(Above1(nodes, local, u), local[u])
  }

  /** The product above u: of u's parent, or the identity at a root. */
  ghost function Above1(nodes: Parents, local: Locals, u: string): Matrix
    requires Rooted(nodes, u) && u in nodes && LocalsFor(nodes, local)
    decreases Height(nodes, u), 0
  {
    match ParentOf(nodes, u)
    case None => IDENTITY
    case Some(p) => ParentRooted(nodes, u); World(nodes, local, p)
  }

  /** Where a point given in u's own frame lies in the world: mapped by u, then by u's parent, and so on. */
  ghost function Place(nodes: Parents, local: Locals, u: string, p: Point): Point
    requires Rooted(nodes, u) && u in nodes && LocalsFor(nodes, local)
    decreases Height(nodes, u)
  {
    match ParentOf(nodes, u)
    case None => Transform(local[u], p)
    case Some(parent) => ParentRooted(nodes, u); Place(nodes, local, parent, Transform(local[u], p))
  }

  /** The world matrix of a node does to a point what the chain of local transforms does. */
  lemma {:induction false} WorldMatrixPlaces(nodes: Parents, local: Locals, u: string, p: Point)
    requires Rooted(nodes, u) && u in nodes && LocalsFor(nodes, local)
    requires forall v :: v in nodes ==> Affine(local[v])
    ensures Transform(World(nodes, local, u), p) == Place(nodes, local, u, p)
    decreases Height(nodes, u)
  {
    ProductComposes(Above1(nodes, local, u), local[u], p);
    var q := Transform(local[u], p);
    match ParentOf(nodes, u)
    case None =>
      assert Transform(IDENTITY, q) == q;
    case Some(parent) =>
      ParentRooted(nodes, u);
      WorldMatrixPlaces(nodes, local, parent, q);
  }

  // ----- subtrees

  lemma RootedBelow(nodes: Parents, v: string, u: string)
    requires Above(nodes, v, u)
    ensures Rooted(nodes, v) <==> Rooted(nodes, u)
  {
    var k: nat :| Up(nodes, v, k) == Some(u);
    if Rooted(nodes, v) {
      var n: nat :| Up(nodes, v, n) == None;
      if n < k { EndStaysEnded(nodes, v, n, k); }
      UpAdd(nodes, v, k, n - k);
    }
    if Rooted(nodes, u) {
      var n: nat :| Up(nodes, u, n) == None;
      UpAdd(nodes, v, k, n);
    }
  }

  /** Below u means u itself or below exactly one child of u. */
  lemma BelowViaChild(nodes: Parents, v: string, u: string) returns (c: string)
    requires Above(nodes, v, u) && v != u
    ensures ParentOf(nodes, c) == Some(u) && Above(nodes, v, c) && c in nodes
  {
    var n: nat :| Up(nodes, v, n) == Some(u);
    UpAdd(nodes, v, n - 1, 1);
    c := Up(nodes, v, n - 1).value;
    assert Up(nodes, c, 1) == Some(u);
  }

  lemma SiblingsApart(nodes: Parents, u: string, c: string, d: string, v: string)
    requires Rooted(nodes, u) && ParentOf(nodes, c) == Some(u) && ParentOf(nodes, d) == Some(u)
    requires Above(nodes, v, c) && Above(nodes, v, d)
    ensures c == d
  {
    var m: nat :| Up(nodes, v, m) == Some(c);
    var n: nat :| Up(nodes, v, n) == Some(d);
    assert Up(nodes, c, 1) == Some(u) && Up(nodes, d, 1) == Some(u);
    UpAdd(nodes, v, m, 1);
    UpAdd(nodes, v, n, 1);
    RootedOffCycle(nodes, u);
    if m < n {
      UpAdd(nodes, v, m + 1, n - m);
    } else if n < m {
      UpAdd(nodes, v, n + 1, m - n);
    }
  }

  lemma ParentNotBelowChild(nodes: Parents, u: string, c: string, x: string)
    requires Rooted(nodes, u) && ParentOf(nodes, c) == Some(u) && Above(nodes, u, x)
    ensures x != c && Above(nodes, c, x) && !Above(nodes, u, c)
  {
    AboveParent(nodes, c);
    AboveTransitive(nodes, c, u, x);
    RootedOffCycle(nodes, u);
    if Above(nodes, u, c) {
      var n: nat :| Up(nodes, u, n) == Some(c);
      assert Up(nodes, c, 1) == Some(u);
      UpAdd(nodes, u, n, 1);
    }
  }

  // ----- the walk

  ghost function ChildSet(nodes: Parents, u: string): set<string> {
    set v | v in nodes && ParentOf(nodes, v) == Some(u)
  }

  ghost predicate ListsChildren(nodes: Parents, children: map<string, seq<string>>, u: string) {
    u in children && SortedListing(children[u], ChildSet(nodes, u))
  }

  ghost predicate ChildLists(nodes: Parents, children: map<string, seq<string>>) {
    children.Keys == nodes.Keys && forall u :: u in nodes ==> ListsChildren(nodes, children, u)
  }

  method BuildChildren(nodes: Parents) returns (children: map<string, seq<string>>)
    ensures ChildLists(nodes, children)
  {
    var sets: map<string, set<string>> := map u | u in nodes :: {};
    var rest := nodes.Keys;
    while rest != {}
      invariant rest <= nodes.Keys && sets.Keys == nodes.Keys
      invariant forall u :: u in nodes ==> sets[u] == ChildSet(nodes, u) - rest
      decreases rest
    {
      var uri :| uri in rest;
      if nodes[uri].Some? && nodes[uri].value in sets {
        sets := sets[nodes[uri].value := sets[nodes[uri].value] + {uri}];
      }
      rest := rest - {uri};
    }
    children := map[];
    rest := nodes.Keys;
    while rest != {}
      invariant rest <= nodes.Keys && children.Keys == nodes.Keys - rest
      invariant forall u :: u in children ==> ListsChildren(nodes, children, u)
      decreases rest
    {
      var uri :| uri in rest;
      assert sets[uri] == ChildSet(nodes, uri);
      var listed := SortedKeys(sets[uri]);
      children := children[uri := listed];
      rest := rest - {uri};
    }
  }

  /** The walk from u is on the right path: u's chain ends, and the lineage lies strictly above u. */
  ghost predicate OnCourse(nodes: Parents, local: Locals, u: string, parentWorld: Matrix, lineage: set<string>)
    requires u in nodes && LocalsFor(nodes, local)
  {
    && Rooted(nodes, u) && parentWorld == Above1(nodes, local, u)
    && forall x :: x in lineage ==> Above(nodes, u, x) && x != u
  }

  /** v has its proper matrix, and the walk has set it just once more. */
  ghost predicate SetOnce(nodes: Parents, local: Locals, v: string,
                          world: map<string, Matrix>, visits: multiset<string>, visits0: multiset<string>)
    requires LocalsFor(nodes, local)
  {
    && v in nodes && Rooted(nodes, v) && v in world
    && world[v] == World(nodes, local, v) && visits[v] == visits0[v] + 1
  }

  ghost predicate Same(v: string, world0: map<string, Matrix>, visits0: multiset<string>,
                       world: map<string, Matrix>, visits: multiset<string>) {
    (v in world0 <==> v in world) && (v in world0 ==> world0[v] == world[v]) && visits0[v] == visits[v]
  }

  class Walker {
    const nodes: Parents
    const local: Locals
    const children: map<string, seq<string>>
    var worldMats: map<string, Matrix>
    ghost var visits: multiset<string>  // how often each node's matrix has been set

    ghost predicate Fixed() {
      LocalsFor(nodes, local) && ChildLists(nodes, children)
    }

    ghost predicate Valid()
      reads this
    {
      worldMats.Keys <= nodes.Keys
    }

    constructor (nodes: Parents, local: Locals, children: map<string, seq<string>>)
      requires LocalsFor(nodes, local) && ChildLists(nodes, children)
      ensures Fixed() && Valid() && worldMats == map[] && visits == multiset{}
      ensures this.nodes == nodes && this.local == local && this.children == children
    {
      this.nodes, this.local, this.children := nodes, local, children;
      worldMats, visits := map[], multiset{};
    }

    /**
     `_walk(uri, parent_world, lineage)`. The lineage ends the walk where it comes round, so what it follows is
     `tree`: the parent map without the links that lead out of the lineage.
     */
    method Walk(uri: string, parentWorld: Matrix, lineage: set<string>, ghost tree: Parents)
      requires Fixed() && Valid() && uri in nodes && lineage <= nodes.Keys && Guarded(nodes, tree, lineage + {uri})
      modifies this
      ensures Valid() && old(worldMats).Keys <= worldMats.Keys
      ensures uri !in lineage ==> uri in worldMats
      ensures uri in lineage ==> worldMats == old(worldMats) && visits == old(visits)
      ensures Untouched(tree, uri, old(worldMats), old(visits), worldMats, visits)
      ensures OnCourse(tree, local, uri, parentWorld, lineage) ==>
        AllSet(tree, local, uri, worldMats, visits, old(visits))
      decreases nodes.Keys - lineage
    {
      if uri in lineage {
        return;
      }
      var currentWorld := Mul4(parentWorld, local[uri]);
      worldMats := worldMats[uri := currentWorld];
      visits := visits + multiset{uri};
      var nextLineage := lineage + {uri};
      ghost var onCourse := OnCourse(tree, local, uri, parentWorld, lineage);
      var kids := children[uri];
      assert ListsChildren(nodes, children, uri);
      ghost var world0, visits0, worldSet, visitsSet := old(worldMats), old(visits), worldMats, visits;
      WalkStarts(tree, local, uri, kids, currentWorld, world0, visits0, worldSet, visitsSet);
      for k := 0 to |kids|
        invariant Valid() && world0.Keys + {uri} <= worldMats.Keys
        invariant Untouched(tree, uri, world0, visits0, worldMats, visits)
        invariant onCourse ==>
          SubtreesWalked(tree, local, KidsWalked(tree, uri, kids, k), worldMats, visits, worldSet, visitsSet)
      {
        ghost var world1, visits1 := worldMats, visits;
        KidGuarded(nodes, tree, lineage, uri, kids, k);
        if onCourse && kids[k] !in nextLineage {
          ChildOnCourse(tree, local, uri, parentWorld, lineage, kids[k]);
        }
        Walk(kids[k], currentWorld, nextLineage, tree);
        AfterKid(tree, local, uri, parentWorld, lineage, kids, k, onCourse, world0, visits0,
            worldSet, visitsSet, world1, visits1, worldMats, visits);
      }
      if onCourse {
        WalkDone(nodes, tree, local, lineage, uri, kids, worldMats, visits, worldSet, visitsSet, visits0);
      }
    }
  }

  /** Where the tree cuts the parent map, the lineage stands guard. */
  ghost predicate Guarded(nodes: Parents, tree: Parents, lineage: set<string>) {
    && tree.Keys == nodes.Keys
    && forall u :: ParentOf(tree, u) == ParentOf(nodes, u) || (u in lineage && ParentOf(tree, u) == None)
  }

  /** The guard holds for a child too, and one outside the lineage is a child in the tree. */
  lemma KidGuarded(nodes: Parents, tree: Parents, lineage: set<string>, u: string, kids: seq<string>, k: nat)
    requires Guarded(nodes, tree, lineage + {u}) && k < |kids| && SortedListing(kids, ChildSet(nodes, u))
    ensures kids[k] in nodes && Guarded(nodes, tree, lineage + {u} + {kids[k]})
    ensures kids[k] !in lineage + {u} ==> kids[k] in ChildSet(tree, u)
  {
    assert kids[k] in Elements(kids);
  }

  lemma WalkStarts(tree: Parents, local: Locals, u: string, kids: seq<string>, current: Matrix,
                   world0: map<string, Matrix>, visits0: multiset<string>,
                   world: map<string, Matrix>, visits: multiset<string>)
    requires LocalsFor(tree, local) && world == world0[u := current] && visits == visits0 + multiset{u}
    ensures Untouched(tree, u, world0, visits0, world, visits)
    ensures SubtreesWalked(tree, local, KidsWalked(tree, u, kids, 0), world, visits, world, visits)
  {
    AboveSelf(tree, u);
    assert KidsWalked(tree, u, kids, 0) == {};
  }

  lemma WalkDone(nodes: Parents, tree: Parents, local: Locals, lineage: set<string>, u: string, kids: seq<string>,
                 world: map<string, Matrix>, visits: multiset<string>,
                 world0: map<string, Matrix>, visits0: multiset<string>, before: multiset<string>)
    requires Guarded(nodes, tree, lineage + {u}) && SortedListing(kids, ChildSet(nodes, u))
    requires LocalsFor(tree, local) && u in tree && Rooted(tree, u)
    requires SubtreesWalked(tree, local, KidsWalked(tree, u, kids, |kids|), world, visits, world0, visits0)
    requires u in world0 && world0[u] == World(tree, local, u) && visits0 == before + multiset{u}
    ensures AllSet(tree, local, u, world, visits, before)
  {
    AllKidsWalked(nodes, tree, lineage + {u}, u, kids);
    SubtreeWalked(tree, local, u, world, visits, world0, visits0, before);
  }

  /** The children of u in the tree among the first k listed. */
  ghost function KidsWalked(tree: Parents, u: string, kids: seq<string>, k: nat): set<string>
    requires k <= |kids|
  {
    Elements(kids[..k]) * ChildSet(tree, u)
  }

  lemma KidsWalkedNext(tree: Parents, u: string, kids: seq<string>, k: nat)
    requires k < |kids| && NoDuplicates(kids)
    ensures kids[k] !in KidsWalked(tree, u, kids, k)
    ensures KidsWalked(tree, u, kids, k + 1) ==
      KidsWalked(tree, u, kids, k) + if kids[k] in ChildSet(tree, u) then {kids[k]} else {}
  {
    assert kids[..k + 1] == kids[..k] + [kids[k]];
  }

  lemma AllKidsWalked(nodes: Parents, tree: Parents, lineage: set<string>, u: string, kids: seq<string>)
    requires Guarded(nodes, tree, lineage) && SortedListing(kids, ChildSet(nodes, u))
    ensures KidsWalked(tree, u, kids, |kids|) == ChildSet(tree, u)
  {
    assert kids[..|kids|] == kids;
    assert ChildSet(tree, u) <= ChildSet(nodes, u);
  }

  /** A child in the lineage is no child in the tree. */
  lemma GuardedKid(tree: Parents, local: Locals, u: string, parentWorld: Matrix, lineage: set<string>,
                   kids: seq<string>, k: nat)
    requires u in tree && LocalsFor(tree, local) && OnCourse(tree, local, u, parentWorld, lineage)
    requires k < |kids| && NoDuplicates(kids) && kids[k] in lineage + {u}
    ensures KidsWalked(tree, u, kids, k + 1) == KidsWalked(tree, u, kids, k)
  {
    KidsWalkedNext(tree, u, kids, k);
    if ParentOf(tree, kids[k]) == Some(u) {
      AboveSelf(tree, u);
      ParentNotBelowChild(tree, u, kids[k], kids[k]);
    }
  }

  /** Only what lies below u may have changed. */
  ghost predicate Untouched(tree: Parents, u: string, world0: map<string, Matrix>, visits0: multiset<string>,
                            world: map<string, Matrix>, visits: multiset<string>) {
    forall v :: !Above(tree, v, u) ==> Same(v, world0, visits0, world, visits)
  }

  lemma UntouchedOn(tree: Parents, u: string, child: string, world0: map<string, Matrix>, visits0: multiset<string>,
                    world1: map<string, Matrix>, visits1: multiset<string>,
                    world: map<string, Matrix>, visits: multiset<string>)
    requires Untouched(tree, u, world0, visits0, world1, visits1) && Above(tree, child, u)
    requires Untouched(tree, child, world1, visits1, world, visits)
    ensures Untouched(tree, u, world0, visits0, world, visits)
  {
    forall v | !Above(tree, v, u) ensures Same(v, world0, visits0, world, visits) {
      if Above(tree, v, child) { AboveTransitive(tree, v, child, u); }
      assert Same(v, world0, visits0, world1, visits1);
    }
  }

  /** Everything below u has its proper matrix, and the walk has set it just once more. */
  ghost predicate AllSet(tree: Parents, local: Locals, u: string, world: map<string, Matrix>, visits: multiset<string>,
                         visits0: multiset<string>)
    requires LocalsFor(tree, local)
  {
    forall v :: v in tree && Above(tree, v, u) ==> SetOnce(tree, local, v, world, visits, visits0)
  }

  lemma NextKidWalked(tree: Parents, local: Locals, u: string, kids: seq<string>, k: nat,
                      world: map<string, Matrix>, visits: multiset<string>,
                      world1: map<string, Matrix>, visits1: multiset<string>,
                      world0: map<string, Matrix>, visits0: multiset<string>)
    requires LocalsFor(tree, local) && Rooted(tree, u) && NoDuplicates(kids)
    requires k < |kids| && kids[k] in ChildSet(tree, u)
    requires SubtreesWalked(tree, local, KidsWalked(tree, u, kids, k), world1, visits1, world0, visits0)
    requires Untouched(tree, kids[k], world1, visits1, world, visits)
    requires AllSet(tree, local, kids[k], world, visits, visits1)
    ensures SubtreesWalked(tree, local, KidsWalked(tree, u, kids, k + 1), world, visits, world0, visits0)
  {
    KidsWalkedNext(tree, u, kids, k);
    ChildrenApart(tree, u);
    NextSubtreeWalked(tree, local, KidsWalked(tree, u, kids, k), kids[k], world, visits, world1, visits1,
      world0, visits0);
  }

  /** The walk of one child, seen from its parent. */
  lemma AfterKid(tree: Parents, local: Locals, u: string, parentWorld: Matrix, lineage: set<string>, kids: seq<string>,
                 k: nat, onCourse: bool, world0: map<string, Matrix>, visits0: multiset<string>,
                 worldSet: map<string, Matrix>, visitsSet: multiset<string>, world1: map<string, Matrix>,
                 visits1: multiset<string>, world: map<string, Matrix>, visits: multiset<string>)
    requires u in tree && LocalsFor(tree, local) && k < |kids| && NoDuplicates(kids)
    requires Untouched(tree, u, world0, visits0, world1, visits1)
    requires onCourse ==>
      && OnCourse(tree, local, u, parentWorld, lineage)
      && SubtreesWalked(tree, local, KidsWalked(tree, u, kids, k), world1, visits1, worldSet, visitsSet)
    requires kids[k] in lineage + {u} ==> world == world1 && visits == visits1
    requires kids[k] !in lineage + {u} ==>
      && kids[k] in ChildSet(tree, u) && Untouched(tree, kids[k], world1, visits1, world, visits)
      && (onCourse ==> AllSet(tree, local, kids[k], world, visits, visits1))
    ensures Untouched(tree, u, world0, visits0, world, visits)
    ensures onCourse ==>
      SubtreesWalked(tree, local, KidsWalked(tree, u, kids, k + 1), world, visits, worldSet, visitsSet)
  {
    if kids[k] !in lineage + {u} {
      AboveParent(tree, kids[k]);
      UntouchedOn(tree, u, kids[k], world0, visits0, world1, visits1, world, visits);
      if onCourse {
        NextKidWalked(tree, local, u, kids, k, world, visits, world1, visits1, worldSet, visitsSet);
      }
    } else if onCourse {
      GuardedKid(tree, local, u, parentWorld, lineage, kids, k);
    }
  }

  /** No node lies below two of the given nodes. */
  ghost predicate Apart(nodes: Parents, kids: set<string>) {
    forall c, d, v :: c in kids && d in kids && c != d && Above(nodes, v, c) ==> !Above(nodes, v, d)
  }

  lemma ChildrenApart(nodes: Parents, u: string)
    requires Rooted(nodes, u)
    ensures Apart(nodes, ChildSet(nodes, u))
  {
    var kids := ChildSet(nodes, u);
    forall c, d, v | c in kids && d in kids && c != d && Above(nodes, v, c) ensures !Above(nodes, v, d) {
      if Above(nodes, v, d) { SiblingsApart(nodes, u, c, d, v); }
    }
  }

  /** The subtrees of `done` are set, everything else is as it was. */
  ghost predicate SubtreesWalked(nodes: Parents, local: Locals, done: set<string>,
                                 world: map<string, Matrix>, visits: multiset<string>,
                                 world0: map<string, Matrix>, visits0: multiset<string>)
    requires LocalsFor(nodes, local)
  {
    && (forall c, v :: c in done && v in nodes && Above(nodes, v, c) ==>
      SetOnce(nodes, local, v, world, visits, visits0))
    && (forall v :: (forall c :: c in done ==> !Above(nodes, v, c)) ==> Same(v, world0, visits0, world, visits))
  }

  lemma ChildOnCourse(nodes: Parents, local: Locals, u: string, parentWorld: Matrix, lineage: set<string>,
                      child: string)
    requires u in nodes && LocalsFor(nodes, local) && OnCourse(nodes, local, u, parentWorld, lineage)
    requires child in nodes && ParentOf(nodes, child) == Some(u)
    ensures OnCourse(nodes, local, child, Product(parentWorld, local[u]), lineage + {u})
  {
    AboveParent(nodes, child);
    RootedBelow(nodes, child, u);
    AboveSelf(nodes, u);
    forall x | x in lineage + {u} ensures Above(nodes, child, x) && x != child {
      ParentNotBelowChild(nodes, u, child, x);
    }
  }

  lemma NextSubtreeWalked(nodes: Parents, local: Locals, done: set<string>, kid: string,
                        world: map<string, Matrix>, visits: multiset<string>,
                        world1: map<string, Matrix>, visits1: multiset<string>,
                        world0: map<string, Matrix>, visits0: multiset<string>)
    requires LocalsFor(nodes, local) && kid !in done
    requires forall c, v :: c in done && Above(nodes, v, c) ==> !Above(nodes, v, kid)
    requires SubtreesWalked(nodes, local, done, world1, visits1, world0, visits0)
    requires Untouched(nodes, kid, world1, visits1, world, visits) && AllSet(nodes, local, kid, world, visits, visits1)
    ensures SubtreesWalked(nodes, local, done + {kid}, world, visits, world0, visits0)
  {
    forall c, v | c in done + {kid} && v in nodes && Above(nodes, v, c)
      ensures SetOnce(nodes, local, v, world, visits, visits0)
    {
      if Above(nodes, v, kid) {
        assert forall d :: d in done ==> !Above(nodes, v, d);
        assert Same(v, world0, visits0, world1, visits1);
      } else {
        assert c in done;
        assert Same(v, world1, visits1, world, visits);
      }
    }
    forall v | forall c :: c in done + {kid} ==> !Above(nodes, v, c)
      ensures Same(v, world0, visits0, world, visits)
    {
      assert kid in done + {kid} && !Above(nodes, v, kid);
      assert forall c :: c in done ==> c in done + {kid};
      assert Same(v, world0, visits0, world1, visits1) && Same(v, world1, visits1, world, visits);
    }
  }

  lemma SubtreeWalked(nodes: Parents, local: Locals, u: string,
                      world: map<string, Matrix>, visits: multiset<string>,
                      world0: map<string, Matrix>, visits0: multiset<string>, before: multiset<string>)
    requires LocalsFor(nodes, local) && u in nodes && Rooted(nodes, u)
    requires SubtreesWalked(nodes, local, ChildSet(nodes, u), world, visits, world0, visits0)
    requires u in world0 && world0[u] == World(nodes, local, u) && visits0 == before + multiset{u}
    ensures AllSet(nodes, local, u, world, visits, before)
  {
    forall v | v in nodes && Above(nodes, v, u) ensures SetOnce(nodes, local, v, world, visits, before) {
      if v == u {
        forall c | c in ChildSet(nodes, u) ensures !Above(nodes, u, c) {
          AboveSelf(nodes, u);
          ParentNotBelowChild(nodes, u, c, u);
        }
        assert Same(u, world0, visits0, world, visits);
      } else {
        var c := BelowViaChild(nodes, v, u);
        assert c in ChildSet(nodes, u);
        assert SetOnce(nodes, local, v, world, visits, visits0);
      }
    }
  }

  // ----- the whole projection

  ghost function RootSet(nodes: Parents): set<string> {
    set u | u in nodes && ParentOf(nodes, u) == None
  }

  lemma {:induction false} RootAbove(nodes: Parents, u: string) returns (r: string)
    requires Rooted(nodes, u) && u in nodes
    ensures r in RootSet(nodes) && Above(nodes, u, r)
    decreases Height(nodes, u)
  {
    AboveSelf(nodes, u);
    r := u;
    if ParentOf(nodes, u).Some? {
      ParentRooted(nodes, u);
      AboveParent(nodes, u);
      r := RootAbove(nodes, ParentOf(nodes, u).value);
      AboveTransitive(nodes, u, ParentOf(nodes, u).value, r);
    }
  }

  lemma RootsApart(nodes: Parents)
    ensures Apart(nodes, RootSet(nodes))
  {
    var roots := RootSet(nodes);
    forall c, d, v | c in roots && d in roots && c != d && Above(nodes, v, c) ensures !Above(nodes, v, d) {
      if Above(nodes, v, d) {
        var m: nat :| Up(nodes, v, m) == Some(c);
        var n: nat :| Up(nodes, v, n) == Some(d);
        UpAdd(nodes, v, m, 1);
        UpAdd(nodes, v, n, 1);
        if m < n { EndStaysEnded(nodes, v, m + 1, n); }
        if n < m { EndStaysEnded(nodes, v, n + 1, m); }
      }
    }
  }

  /** Every node whose chain ends has its proper matrix, set once. */
  ghost predicate RootedSet(nodes: Parents, local: Locals, world: map<string, Matrix>, visits: multiset<string>)
    requires LocalsFor(nodes, local)
  {
    forall v :: SetIfRooted(nodes, local, v, world, visits)
  }

  ghost predicate SetIfRooted(nodes: Parents, local: Locals, v: string, world: map<string, Matrix>,
                              visits: multiset<string>)
    requires LocalsFor(nodes, local)
  {
    v in nodes && Rooted(nodes, v) ==> SetOnce(nodes, local, v, world, visits, multiset{})
  }

  method WalkRoots(walker: Walker)
    requires walker.Fixed() && walker.Valid() && walker.worldMats == map[] && walker.visits == multiset{}
    modifies walker
    ensures walker.Valid() && RootedSet(walker.nodes, walker.local, walker.worldMats, walker.visits)
    ensures forall v :: v in walker.worldMats ==> Rooted(walker.nodes, v)
  {
    var nodes, local := walker.nodes, walker.local;
    var roots := SortedKeys(set u | u in nodes && (nodes[u].None? || nodes[u].value !in nodes));
    assert RootSet(nodes) == set u | u in nodes && (nodes[u].None? || nodes[u].value !in nodes);
    for k := 0 to |roots|
      invariant walker.Valid()
      invariant SubtreesWalked(nodes, local, Elements(roots[..k]), walker.worldMats, walker.visits, map[], multiset{})
    {
      assert roots[k] in Elements(roots);
      assert Rooted(nodes, roots[k]) by { assert Up(nodes, roots[k], 1) == None; }
      ghost var world1, visits1 := walker.worldMats, walker.visits;
      walker.Walk(roots[k], IDENTITY, {}, nodes);
      NextRootWalked(nodes, local, roots, k, walker.worldMats, walker.visits, world1, visits1);
    }
    assert roots[..|roots|] == roots;
    RootsWalked(nodes, local, walker.worldMats, walker.visits);
  }

  lemma NextRootWalked(nodes: Parents, local: Locals, roots: seq<string>, k: nat, world: map<string, Matrix>,
                       visits: multiset<string>, world1: map<string, Matrix>, visits1: multiset<string>)
    requires LocalsFor(nodes, local) && SortedListing(roots, RootSet(nodes)) && k < |roots|
    requires SubtreesWalked(nodes, local, Elements(roots[..k]), world1, visits1, map[], multiset{})
    requires Untouched(nodes, roots[k], world1, visits1, world, visits)
    requires AllSet(nodes, local, roots[k], world, visits, visits1)
    ensures SubtreesWalked(nodes, local, Elements(roots[..k + 1]), world, visits, map[], multiset{})
  {
    NextListed(roots, k);
    RootsApart(nodes);
    assert roots[k] in Elements(roots);
    assert forall c :: c in Elements(roots[..k]) ==> c in Elements(roots);
    NextSubtreeWalked(nodes, local, Elements(roots[..k]), roots[k], world, visits, world1, visits1, map[], multiset{});
  }

  lemma RootsWalked(nodes: Parents, local: Locals, world: map<string, Matrix>, visits: multiset<string>)
    requires LocalsFor(nodes, local)
    requires SubtreesWalked(nodes, local, RootSet(nodes), world, visits, map[], multiset{})
    ensures RootedSet(nodes, local, world, visits)
    ensures forall v :: v in world ==> Rooted(nodes, v)
  {
    forall v | v in nodes && Rooted(nodes, v) ensures SetIfRooted(nodes, local, v, world, visits) {
      var r := RootAbove(nodes, v);
    }
    forall v | v in world ensures Rooted(nodes, v) {
      var r := SetBelowOne(nodes, local, RootSet(nodes), world, visits, v);
      assert Up(nodes, r, 1) == None;
      RootedBelow(nodes, v, r);
    }
  }

  /** From nothing, the walks set only what lies below where they began. */
  lemma SetBelowOne(nodes: Parents, local: Locals, done: set<string>, world: map<string, Matrix>,
                    visits: multiset<string>, v: string) returns (c: string)
    requires LocalsFor(nodes, local) && v in world
    requires SubtreesWalked(nodes, local, done, world, visits, map[], multiset{})
    ensures c in done && Above(nodes, v, c)
  {
    assert !Same(v, map[], multiset{}, world, visits);
    c :| c in done && Above(nodes, v, c);
  }

  lemma NextListed(s: seq<string>, k: nat)
    requires k < |s| && NoDuplicates(s)
    ensures s[k] !in Elements(s[..k]) && Elements(s[..k + 1]) == Elements(s[..k]) + {s[k]}
    ensures forall x :: x in s[..k] ==> x in s
  {
    assert s[..k + 1] == s[..k] + [s[k]];
  }

  /** A walk from a node whose chain does not end leaves the others alone. */
  lemma CyclicWalkApart(nodes: Parents, local: Locals, uri: string,
                        world0: map<string, Matrix>, visits0: multiset<string>,
                        world: map<string, Matrix>, visits: multiset<string>)
    requires LocalsFor(nodes, local) && RootedSet(nodes, local, world0, visits0)
    requires uri in nodes && uri !in world0
    requires Untouched(nodes, uri, world0, visits0, world, visits)
    ensures RootedSet(nodes, local, world, visits)
  {
    assert !Rooted(nodes, uri) by {
      assert SetIfRooted(nodes, local, uri, world0, visits0);
    }
    forall v | v in nodes && Rooted(nodes, v) ensures SetIfRooted(nodes, local, v, world, visits) {
      assert SetIfRooted(nodes, local, v, world0, visits0);
      if Above(nodes, v, uri) { RootedBelow(nodes, v, uri); }
      assert Same(v, world0, visits0, world, visits);
    }
  }

  // ----- nodes on and below a cycle

  /** The parent map with the link out of s cut. */
  ghost function Cut(nodes: Parents, s: string): Parents
    requires s in nodes
  {
    nodes[s := None]
  }

  lemma {:induction false} CutUp(nodes: Parents, s: string, v: string, n: nat)
    requires s in nodes
    ensures Up(Cut(nodes, s), v, n).Some? ==> Up(nodes, v, n) == Up(Cut(nodes, s), v, n)
    decreases n
  {
    if n > 0 && ParentOf(Cut(nodes, s), v).Some? { CutUp(nodes, s, ParentOf(nodes, v).value, n - 1); }
  }

  lemma {:induction false} CutReaches(nodes: Parents, s: string, v: string, n: nat)
    requires s in nodes && Up(nodes, v, n) == Some(s)
    ensures Above(Cut(nodes, s), v, s)
    decreases n
  {
    AboveSelf(Cut(nodes, s), s);
    if v != s {
      var p := ParentOf(nodes, v).value;
      CutReaches(nodes, s, p, n - 1);
      AboveParent(Cut(nodes, s), v);
      AboveTransitive(Cut(nodes, s), v, p, s);
    }
  }

  /** Below s means the same with the link cut, and there the chain ends at s. */
  lemma CutAbove(nodes: Parents, s: string, v: string)
    requires s in nodes
    ensures Above(Cut(nodes, s), v, s) <==> Above(nodes, v, s)
    ensures Above(nodes, v, s) ==> Rooted(Cut(nodes, s), v)
  {
    if Above(Cut(nodes, s), v, s) {
      var n: nat :| Up(Cut(nodes, s), v, n) == Some(s);
      CutUp(nodes, s, v, n);
    }
    if Above(nodes, v, s) {
      var n: nat :| Up(nodes, v, n) == Some(s);
      CutReaches(nodes, s, v, n);
      assert Up(Cut(nodes, s), s, 1) == None;
      RootedBelow(Cut(nodes, s), v, s);
    }
  }

  /** v has the product from s down to v, as if s were a root. */
  ghost predicate PlacedFrom(nodes: Parents, local: Locals, s: string, v: string, world: map<string, Matrix>)
    requires LocalsFor(nodes, local)
  {
    && s in nodes && v in nodes && v in world
    && Rooted(Cut(nodes, s), v) && world[v] == World(Cut(nodes, s), local, v)
  }

  /** Of the nodes on the cycle that v hangs on, s has the least uri. */
  ghost predicate LeastAbove(nodes: Parents, s: string, v: string) {
    && OnParentCycle(nodes, s) && Above(nodes, v, s)
    && forall c :: OnParentCycle(nodes, c) && Above(nodes, v, c) ==> Le(s, c)
  }

  /** Every node whose chain does not end hangs on a cycle, and that has a least uri. */
  lemma LeastAboveExists(nodes: Parents, v: string) returns (s: string)
    requires v in nodes && !Rooted(nodes, v)
    ensures LeastAbove(nodes, s, v)
  {
    var on := set c | c in nodes && OnParentCycle(nodes, c) && Above(nodes, v, c);
    forall c | OnParentCycle(nodes, c) && Above(nodes, v, c) ensures c in on {
      var n: nat :| Up(nodes, v, n) == Some(c);
      UpInNodes(nodes, v, n);
    }
    var c := EndlessMeetsCycle(nodes, v);
    var listed := Listing(on);
    assert c in Elements(listed);
    s := listed[0];
    assert s in Elements(listed);
    forall d | d in on ensures Le(s, d) {
      assert d in Elements(listed);
      var i :| 0 <= i < |listed| && listed[i] == d;
      LeTotal(s, s);
      assert i > 0 ==> InOrder(listed, 0, i);
    }
  }

  /** Of two nodes above one node, one is above the other. */
  lemma ChainIsLinear(nodes: Parents, v: string, a: string, b: string)
    requires Above(nodes, v, a) && Above(nodes, v, b)
    ensures Above(nodes, a, b) || Above(nodes, b, a)
  {
    var m: nat :| Up(nodes, v, m) == Some(a);
    var n: nat :| Up(nodes, v, n) == Some(b);
    if m <= n { UpAdd(nodes, v, m, n - m); } else { UpAdd(nodes, v, n, m - n); }
  }

  /** The nodes hanging on cycles whose least uri has come up, and where the walks set so far began. */
  ghost predicate CyclesSet(nodes: Parents, local: Locals, begun: set<string>, world: map<string, Matrix>)
    requires LocalsFor(nodes, local)
  {
    && (forall s, v :: s in begun && v in nodes && LeastAbove(nodes, s, v) ==> PlacedFrom(nodes, local, s, v, world))
    && forall v :: v in world && !Rooted(nodes, v) ==> exists u :: u in begun && Above(nodes, v, u)
  }

  /** A node that has its matrix already is not the least of its cycle, if all before it are smaller. */
  lemma SetIsNotLeast(nodes: Parents, local: Locals, begun: set<string>, world: map<string, Matrix>, u: string)
    requires LocalsFor(nodes, local) && CyclesSet(nodes, local, begun, world) && u in world
    requires forall x :: x in begun ==> x != u && Le(x, u)
    ensures CyclesSet(nodes, local, begun + {u}, world)
  {
    forall v | v in nodes ensures !LeastAbove(nodes, u, v) {
      if LeastAbove(nodes, u, v) {
        if Rooted(nodes, u) { RootedOffCycle(nodes, u); }
        var x :| x in begun && Above(nodes, u, x);
        CycleReturns(nodes, u, x);
        AboveTransitive(nodes, v, u, x);
        LeTotal(u, x);
      }
    }
    forall v | v in world && !Rooted(nodes, v) ensures exists x :: x in begun + {u} && Above(nodes, v, x) {
      var x :| x in begun && Above(nodes, v, x);
    }
  }

  /** A walk from a node not reached yet disturbs nothing that hangs on a cycle already placed. */
  lemma WalkKeepsCycles(nodes: Parents, local: Locals, begun: set<string>, u: string,
                        world0: map<string, Matrix>, visits0: multiset<string>,
                        world: map<string, Matrix>, visits: multiset<string>)
    requires LocalsFor(nodes, local) && CyclesSet(nodes, local, begun, world0) && u in nodes && u !in world0
    requires Untouched(nodes, u, world0, visits0, world, visits)
    requires forall v :: v in nodes && Above(nodes, v, u) ==> PlacedFrom(nodes, local, u, v, world)
    ensures CyclesSet(nodes, local, begun + {u}, world)
  {
    forall s, v | s in begun + {u} && v in nodes && LeastAbove(nodes, s, v)
      ensures PlacedFrom(nodes, local, s, v, world)
    {
      if s != u {
        assert PlacedFrom(nodes, local, s, v, world0);
        if Above(nodes, v, u) {
          LeastAboveBetween(nodes, s, v, u);
          assert false;
        }
        assert Same(v, world0, visits0, world, visits);
      }
    }
    forall v | v in world && !Rooted(nodes, v) ensures exists x :: x in begun + {u} && Above(nodes, v, x) {
      if !Above(nodes, v, u) {
        assert Same(v, world0, visits0, world, visits);
        var x :| x in begun && Above(nodes, v, x);
      }
    }
  }

  lemma LeastAboveBetween(nodes: Parents, s: string, v: string, u: string)
    requires LeastAbove(nodes, s, v) && Above(nodes, v, u)
    ensures LeastAbove(nodes, s, u)
  {
    ChainIsLinear(nodes, v, s, u);
    if Above(nodes, s, u) { CycleReturns(nodes, s, u); }
    forall c | OnParentCycle(nodes, c) && Above(nodes, u, c) ensures Le(s, c) { AboveTransitive(nodes, v, u, c); }
  }

  method WalkUnreached(walker: Walker, uri: string, ghost begun: set<string>)
    requires walker.Fixed() && walker.Valid() && RootedSet(walker.nodes, walker.local, walker.worldMats, walker.visits)
    requires CyclesSet(walker.nodes, walker.local, begun, walker.worldMats)
    requires uri in walker.nodes && uri !in walker.worldMats
    modifies walker
    ensures walker.Valid() && RootedSet(walker.nodes, walker.local, walker.worldMats, walker.visits)
    ensures CyclesSet(walker.nodes, walker.local, begun + {uri}, walker.worldMats)
    ensures old(walker.worldMats).Keys + {uri} <= walker.worldMats.Keys
  {
    ghost var nodes, local, tree := walker.nodes, walker.local, Cut(walker.nodes, uri);
    ghost var world0, visits0 := walker.worldMats, walker.visits;
    assert Rooted(tree, uri) by { assert Up(tree, uri, 1) == None; }
    walker.Walk(uri, IDENTITY, {}, tree);
    forall v ensures Above(tree, v, uri) <==> Above(nodes, v, uri) { CutAbove(nodes, uri, v); }
    CyclicWalkApart(nodes, local, uri, world0, visits0, walker.worldMats, walker.visits);
    forall v | v in nodes && Above(nodes, v, uri) ensures PlacedFrom(nodes, local, uri, v, walker.worldMats) {
      assert SetOnce(tree, local, v, walker.worldMats, walker.visits, visits0);
    }
    WalkKeepsCycles(nodes, local, begun, uri, world0, visits0, walker.worldMats, walker.visits);
  }

  /** The second pass: whatever no root reaches. */
  method WalkRest(walker: Walker)
    requires walker.Fixed() && walker.Valid() && RootedSet(walker.nodes, walker.local, walker.worldMats, walker.visits)
    requires forall v :: v in walker.worldMats ==> Rooted(walker.nodes, v)
    modifies walker
    ensures walker.Valid() && RootedSet(walker.nodes, walker.local, walker.worldMats, walker.visits)
    ensures CyclesSet(walker.nodes, walker.local, walker.nodes.Keys, walker.worldMats)
    ensures walker.worldMats.Keys == walker.nodes.Keys
  {
    var uris := SortedKeys(walker.nodes.Keys);
    for k := 0 to |uris|
      invariant walker.Valid() && RootedSet(walker.nodes, walker.local, walker.worldMats, walker.visits)
      invariant CyclesSet(walker.nodes, walker.local, Elements(uris[..k]), walker.worldMats)
      invariant Elements(uris[..k]) <= walker.worldMats.Keys
    {
      assert uris[k] in Elements(uris);
      NextListed(uris, k);
      SmallerBefore(uris, k);
      if uris[k] !in walker.worldMats {
        WalkUnreached(walker, uris[k], Elements(uris[..k]));
      } else {
        SetIsNotLeast(walker.nodes, walker.local, Elements(uris[..k]), walker.worldMats, uris[k]);
      }
    }
    assert uris[..|uris|] == uris;
  }

  lemma SmallerBefore(uris: seq<string>, k: nat)
    requires k < |uris| && Sorted(uris) && NoDuplicates(uris)
    ensures forall x :: x in Elements(uris[..k]) ==> x != uris[k] && Le(x, uris[k])
  {
    forall x | x in Elements(uris[..k]) ensures x != uris[k] && Le(x, uris[k]) {
      var i :| 0 <= i < k && uris[..k][i] == x;
      assert InOrder(uris, i, k);
    }
  }

  /**
   The world matrices. Every node gets one, on any parent map. Where the chain of parents ends it is the product
   from the root down, set exactly once; in a forest that is every node. A node on or below a cycle gets the
   product from the least uri of that cycle down.
   */
  method WorldMatrices(nodes: Parents, local: Locals)
    returns (world: map<string, Matrix>, ghost visits: multiset<string>)
    requires LocalsFor(nodes, local)
    ensures world.Keys == nodes.Keys
    ensures forall u :: u in nodes && Rooted(nodes, u) ==> world[u] == World(nodes, local, u)
    ensures forall u :: u in nodes && Rooted(nodes, u) ==> visits[u] == 1
    ensures forall s, u :: u in nodes && LeastAbove(nodes, s, u) ==> PlacedFrom(nodes, local, s, u, world)
    ensures Forest(nodes) ==> forall u :: u in nodes ==>
      Rooted(nodes, u) && world[u] == World(nodes, local, u) && visits[u] == 1
  {
    var children := BuildChildren(nodes);
    var walker := new Walker(nodes, local, children);
    WalkRoots(walker);
    WalkRest(walker);
    world, visits := walker.worldMats, walker.visits;
    forall u | u in nodes && Rooted(nodes, u) ensures world[u] == World(nodes, local, u) && visits[u] == 1 {
      assert SetIfRooted(nodes, local, u, world, visits);
    }
    forall s, u | u in nodes && LeastAbove(nodes, s, u) ensures PlacedFrom(nodes, local, s, u, world) {
      var n: nat :| Up(nodes, u, n) == Some(s);
      UpInNodes(nodes, u, n);
    }
    if Forest(nodes) {
      forall u | u in nodes ensures Rooted(nodes, u) { ForestIsRooted(nodes, u); }
    }
  }

  datatype Row = Row(uri: string, worldMatrix: Matrix)

  /** The rows drawn are those of the relevant nodes, in uri order. */
  ghost predicate Shows(visible: seq<Row>, uris: seq<string>, world: map<string, Matrix>,
                        relevant: (string, Matrix) -> bool)
    requires Elements(uris) <= world.Keys
  {
    && (forall row :: row in visible <==>
      row.uri in uris && row.worldMatrix == world[row.uri] && relevant(row.uri, row.worldMatrix))
    && (forall i, j :: 0 <= i < j < |visible| ==>
      visible[i].uri != visible[j].uri && Le(visible[i].uri, visible[j].uri))
  }

  lemma ShowsNext(visible: seq<Row>, uris: seq<string>, uri: string, world: map<string, Matrix>,
                  relevant: (string, Matrix) -> bool)
    requires Elements(uris + [uri]) <= world.Keys && Elements(uris) <= world.Keys
      && Shows(visible, uris, world, relevant)
    requires Sorted(uris + [uri]) && NoDuplicates(uris + [uri])
    requires uri in world
    ensures Shows(if relevant(uri, world[uri]) then visible + [Row(uri, world[uri])] else visible,
                  uris + [uri], world, relevant)
  {
    var longer, next := uris + [uri], if relevant(uri, world[uri]) then visible + [Row(uri, world[uri])] else visible;
    assert longer[|uris|] == uri;
    forall x | x in uris ensures x != uri && Le(x, uri) {
      var i :| 0 <= i < |uris| && uris[i] == x;
      assert longer[i] == x && InOrder(longer, i, |uris|);
    }
    forall row
      ensures row in next <==>
        row.uri in longer && row.worldMatrix == world[row.uri] && relevant(row.uri, row.worldMatrix)
    {
      assert row in next <==> row in visible || (relevant(uri, world[uri]) && row == Row(uri, world[uri]));
    }
    forall i | 0 <= i < |visible| ensures visible[i].uri != uri && Le(visible[i].uri, uri) {
      assert visible[i] in visible;
    }
  }

  /** `project`: the rows to draw, in uri order, and how many nodes were culled. */
  method Project(nodes: Parents, local: Locals, relevant: (string, Matrix) -> bool)
    returns (visible: seq<Row>, culled: nat, world: map<string, Matrix>)
    requires LocalsFor(nodes, local)
    ensures |visible| + culled == |nodes|
    ensures world.Keys == nodes.Keys
    ensures forall u :: u in nodes && Rooted(nodes, u) ==> world[u] == World(nodes, local, u)
    ensures exists uris :: SortedListing(uris, nodes.Keys) && Shows(visible, uris, world, relevant)
  {
    ghost var visits;
    world, visits := WorldMatrices(nodes, local);
    var uris := SortedKeys(nodes.Keys);
    visible, culled := [], 0;
    for k := 0 to |uris|
      invariant |visible| + culled == k
      invariant Elements(uris[..k]) <= world.Keys && Shows(visible, uris[..k], world, relevant)
    {
      assert uris[k] in Elements(uris);
      assert uris[..k + 1] == uris[..k] + [uris[k]];
      assert Elements(uris[..k + 1]) <= Elements(uris);
      PrefixSorted(uris, k + 1);
      ShowsNext(visible, uris[..k], uris[k], world, relevant);
      if relevant(uris[k], world[uris[k]]) {
        visible := visible + [Row(uris[k], world[uris[k]])];
      } else {
        culled := culled + 1;
      }
    }
    assert uris[..|uris|] == uris;
    DistinctSize(uris);
  }
}
