/** The link graph of services/entanglement_graph/service.py. */
module Entanglement {
  // `_has_path` and `entangle`, which the sandbox and the MCP tools call for every new link.

  import opened Common
  import opened Digraph

  datatype Link = Link(source: string, target: string, relationship: string)

  function Arrows(links: seq<Link>): (g: Graph)
    ensures forall i :: 0 <= i < |links| ==> (links[i].source, links[i].target) in g
    ensures forall a, b :: (a, b) in g ==> exists i :: 0 <= i < |links| && links[i].source == a && links[i].target == b
  {
    set i | 0 <= i < |links| :: (links[i].source, links[i].target)
  }

  ghost predicate Leads(g: Graph, src: string, dst: string) {
    exists p :: Walk(g, p) && p[0] == src && p[|p| - 1] == dst
  }

  lemma LeadsSelf(g: Graph, x: string)
    ensures Leads(g, x, x)
  {
    assert Walk(g, [x]);
  }

  lemma LeadsStep(g: Graph, x: string, y: string, dst: string)
    requires (x, y) in g && Leads(g, y, dst)
    ensures Leads(g, x, dst)
  {
    var p :| Walk(g, p) && p[0] == y && p[|p| - 1] == dst;
    var q := [x] + p;
    forall i | 0 <= i < |q| - 1 ensures (q[i], q[i + 1]) in g {
      if i > 0 { assert q[i] == p[i - 1] && q[i + 1] == p[i]; }
    }
    assert Walk(g, q);
  }

  /** A set that arrows do not leave holds everything its members lead to. */
  lemma {:induction false} ClosedUnderArrows(g: Graph, s: set<string>, p: seq<string>)
    requires Walk(g, p) && p[0] in s
    requires forall x, y :: x in s && (x, y) in g ==> y in s
    ensures p[|p| - 1] in s
    decreases |p|
  {
    if |p| > 1 {
      assert (p[0], p[1]) in g;
      forall i | 0 <= i < |p[1..]| - 1 ensures (p[1..][i], p[1..][i + 1]) in g { assert (p[i + 1], p[i + 2]) in g; }
      ClosedUnderArrows(g, s, p[1..]);
    }
  }

  /** `_has_path(src, dst, seen)` with the set it shares down the recursion. */
  method Search(links: seq<Link>, src: string, dst: string, seen: set<string>, ghost all: set<string>)
    returns (found: bool, seen': set<string>)
    requires seen <= all && src in all && forall a, b :: (a, b) in Arrows(links) ==> b in all
    ensures found ==> Leads(Arrows(links), src, dst)
    ensures !found ==> seen + {src} <= seen' <= all && (dst in seen' ==> dst in seen)
    ensures !found ==> forall x, y :: x in seen' && x !in seen && (x, y) in Arrows(links) ==> y in seen'
    decreases all - seen
  {
    LeadsSelf(Arrows(links), src);
    if src == dst {
      return true, seen;
    }
    if src in seen {
      return false, seen;
    }
    seen' := seen + {src};
    for i := 0 to |links|
      invariant seen + {src} <= seen' <= all && (dst in seen' ==> dst in seen)
      invariant forall j :: 0 <= j < i && links[j].source == src ==> links[j].target in seen'
      invariant forall x, y :: x in seen' && x !in seen && x != src && (x, y) in Arrows(links) ==> y in seen'
    {
      if links[i].source == src {
        ghost var seen0 := seen';
        found, seen' := Search(links, links[i].target, dst, seen', all);
        if found {
          LeadsStep(Arrows(links), src, links[i].target, dst);
          return true, seen';
        }
      }
    }
    return false, seen';
  }

  /** `_has_path(src, dst)` */
  method HasPath(links: seq<Link>, src: string, dst: string) returns (found: bool)
    ensures found <==> Leads(Arrows(links), src, dst)
  {
    ghost var all := {src} + set i | 0 <= i < |links| :: links[i].target;
    var seen;
    found, seen := Search(links, src, dst, {}, all);
    if !found && Leads(Arrows(links), src, dst) {
      ghost var p :| Walk(Arrows(links), p) && p[0] == src && p[|p| - 1] == dst;
      ClosedUnderArrows(Arrows(links), seen, p);
    }
  }

  datatype Refusal = WouldCycle | BidirectionalRejected

  datatype Outcome = Outcome(links: seq<Link>, refusal: Option<Refusal>)

  /** `entangle(link, allow_cycle)`: the bidirectional refusal comes after the link has been stored. */
  ghost function Entangled(links: seq<Link>, link: Link, bidirectional: bool, allowCycle: bool): Outcome {
    if !allowCycle && Leads(Arrows(links), link.target, link.source) then Outcome(links, Some(WouldCycle))
    else if !bidirectional then Outcome(links + [link], None)
    else if !allowCycle then Outcome(links + [link], Some(BidirectionalRejected))
    else Outcome(links + [link, Link(link.target, link.source, link.relationship)], None)
  }

  method Entangle(links0: seq<Link>, link: Link, bidirectional: bool, allowCycle: bool)
    returns (links: seq<Link>, refusal: Option<Refusal>)
    ensures Outcome(links, refusal) == Entangled(links0, link, bidirectional, allowCycle)
  {
    links := links0;
    if !allowCycle {
      var back := HasPath(links, link.target, link.source);
      if back {
        return links, Some(WouldCycle);
      }
    }
    links := links + [link];
    if bidirectional {
      if !allowCycle {
        return links, Some(BidirectionalRejected);
      }
      links := links + [Link(link.target, link.source, link.relationship)];
      assert links == links0 + [link, Link(link.target, link.source, link.relationship)];
    }
    return links, None;
  }

  /** From b to the first use of the arrow a -> b, or to the end, the walk runs in the old graph. */
  lemma {:induction false} LeadsToArrow(g: Graph, a: string, b: string, p: seq<string>)
    requires Walk(g + {(a, b)}, p) && p[|p| - 1] == a
    ensures Leads(g, p[0], a)
    decreases |p|
  {
    if |p| == 1 {
      LeadsSelf(g, a);
    } else if (p[0], p[1]) == (a, b) {
      LeadsSelf(g, a);
    } else {
      assert (p[0], p[1]) in g + {(a, b)};
      forall i | 0 <= i < |p[1..]| - 1 ensures (p[1..][i], p[1..][i + 1]) in g + {(a, b)} {
        assert (p[i + 1], p[i + 2]) in g + {(a, b)};
      }
      LeadsToArrow(g, a, b, p[1..]);
      LeadsStep(g, p[0], p[1], a);
    }
  }

  /** An acyclic graph stays acyclic under a new arrow exactly when its head does not lead back to its tail. */
  lemma NewArrowAcyclicIff(g: Graph, a: string, b: string)
    requires Acyclic(g)
    ensures Acyclic(g + {(a, b)}) <==> !Leads(g, b, a)
  {
    var h := g + {(a, b)};
    if Leads(g, b, a) {
      var p :| Walk(g, p) && p[0] == b && p[|p| - 1] == a;
      var c := [a] + p;
      forall i | 0 <= i < |c| - 1 ensures (c[i], c[i + 1]) in h {
        if i > 0 { assert c[i] == p[i - 1] && c[i + 1] == p[i]; }
      }
      assert Cycle(h, c);
    } else {
      forall p ensures !Cycle(h, p) {
        if Cycle(h, p) {
          CycleUsesArrow(g, a, b, p);
        }
      }
    }
  }

  /** A cycle read from behind one of its arrows round to that arrow's tail. */
  lemma AroundIsWalk(h: Graph, p: seq<string>, i: nat) returns (around: seq<string>)
    requires Cycle(h, p) && i + 1 < |p|
    ensures Walk(h, around) && around[0] == p[i + 1] && around[|around| - 1] == p[i]
  {
    var n := |p| - 1;
    around := seq(n, j requires 0 <= j < n => if i + 1 + j < n then p[i + 1 + j] else p[i + 1 + j - n]);
    forall j | 0 <= j < n - 1 ensures (around[j], around[j + 1]) in h {
      var k := if i + 1 + j < n then i + 1 + j else i + 1 + j - n;
      assert around[j] == p[k] && around[j + 1] == p[k + 1];
      assert (p[k], p[k + 1]) in h;
    }
  }

  lemma CycleUsesArrow(g: Graph, a: string, b: string, p: seq<string>)
    requires Acyclic(g) && Cycle(g + {(a, b)}, p)
    ensures Leads(g, b, a)
  {
    assert !Cycle(g, p);
    var i :| 0 <= i < |p| - 1 && (p[i], p[i + 1]) !in g;
    assert (p[i], p[i + 1]) in g + {(a, b)};
    var around := AroundIsWalk(g + {(a, b)}, p, i);
    LeadsToArrow(g, a, b, around);
  }

  lemma ArrowsAppend(links: seq<Link>, link: Link)
    ensures Arrows(links + [link]) == Arrows(links) + {(link.source, link.target)}
  {
    var more := links + [link];
    forall x, y ensures (x, y) in Arrows(more) <==> (x, y) in Arrows(links) + {(link.source, link.target)} {
      if (x, y) in Arrows(more) {
        var i :| 0 <= i < |more| && more[i].source == x && more[i].target == y;
        if i < |links| { assert links[i] == more[i]; }
      }
      if (x, y) in Arrows(links) {
        var i :| 0 <= i < |links| && links[i].source == x && links[i].target == y;
        assert more[i] == links[i];
      }
      assert more[|links|] == link;
    }
  }

  /**
   Without allow_cycle the links stay a DAG, whatever is asked; a link is refused as cyclic exactly
   when storing it would end that.
   */
  lemma EntangleKeepsDag(links: seq<Link>, link: Link, bidirectional: bool)
    requires Acyclic(Arrows(links))
    ensures Acyclic(Arrows(Entangled(links, link, bidirectional, false).links))
    ensures Entangled(links, link, bidirectional, false).refusal == Some(WouldCycle) <==>
      !Acyclic(Arrows(links + [link]))
  {
    ArrowsAppend(links, link);
    NewArrowAcyclicIff(Arrows(links), link.source, link.target);
  }

  /** A refused call leaves the links as they were, except the bidirectional refusal, which keeps the link. */
  lemma RefusalLeavesLinksIff(links: seq<Link>, link: Link, bidirectional: bool, allowCycle: bool)
    requires Entangled(links, link, bidirectional, allowCycle).refusal.Some?
    ensures Entangled(links, link, bidirectional, allowCycle).links == links
      <==> Leads(Arrows(links), link.target, link.source)
  {
    assert |links + [link]| == |links| + 1;
  }

  /** A bidirectional link between two objects, asked for without allow_cycle: refused, and half of it is stored. */
  lemma HalfMadeLink(link: Link)
    requires link.source != link.target
    ensures Entangled([], link, true, false).refusal == Some(BidirectionalRejected)
    ensures Entangled([], link, true, false).links == [link]
  {
    assert Arrows([]) == {};
    forall p: seq<string> | |p| >= 2 ensures !Walk(Arrows([]), p) {
      assert (p[0], p[1]) !in Arrows([]);
    }
    assert [] + [link] == [link];
  }

  // ----- what a call stores

  /**
   When a call is accepted, and what it stores: the link, behind what is there, and for a bidirectional one its
   reverse behind that. So the source leads to the target.
   */
  lemma AcceptedStores(links: seq<Link>, link: Link, bidirectional: bool, allowCycle: bool)
    ensures var out := Entangled(links, link, bidirectional, allowCycle);
      out.refusal == None <==> allowCycle || (!bidirectional && !Leads(Arrows(links), link.target, link.source))
    ensures var out := Entangled(links, link, bidirectional, allowCycle);
      out.refusal == None ==>
        && out.links[..|links|] == links && out.links[|links|] == link
        && |out.links| == |links| + (if bidirectional then 2 else 1)
        && (bidirectional ==> out.links[|links| + 1] == Link(link.target, link.source, link.relationship))
        && Arrows(out.links) == Arrows(links) + {(link.source, link.target)}
             + (if bidirectional then {(link.target, link.source)} else {})
        && Leads(Arrows(out.links), link.source, link.target)
  {
    var out := Entangled(links, link, bidirectional, allowCycle);
    if out.refusal == None {
      ArrowsAppend(links, link);
      var reverse := Link(link.target, link.source, link.relationship);
      ArrowsAppend(links + [link], reverse);
      assert links + [link, reverse] == links + [link] + [reverse];
      LeadsSelf(Arrows(out.links), link.target);
      LeadsStep(Arrows(out.links), link.source, link.target, link.target);
    }
  }

  /** A link asked for without allow_cycle, and whether in both directions. */
  datatype Ask = Ask(link: Link, bidirectional: bool)

  ghost function LinksAfter(asks: seq<Ask>): seq<Link> {
    if asks == [] then []
    else
      var n := |asks| - 1;
      Entangled(LinksAfter(asks[..n]), asks[n].link, asks[n].bidirectional, false).links
  }

  ghost function RefusalAt(asks: seq<Ask>, i: nat): Option<Refusal>
    requires i < |asks|
  {
    Entangled(LinksAfter(asks[..i]), asks[i].link, asks[i].bidirectional, false).refusal
  }

  /** The arrows of the links that were not refused as cyclic: the accepted ones, and the half-made. */
  ghost function Stored(asks: seq<Ask>): Graph {
    if asks == [] then {}
    else
      var n := |asks| - 1;
      Stored(asks[..n]) +
        if RefusalAt(asks, n) == Some(WouldCycle) then {} else {(asks[n].link.source, asks[n].link.target)}
  }

  /**
   Over any run of calls without allow_cycle the arrows stored are those of the links not refused as cyclic, and they
   have no cycle.
   */
  lemma {:induction false} RunStores(asks: seq<Ask>)
    ensures Arrows(LinksAfter(asks)) == Stored(asks) && Acyclic(Stored(asks))
    decreases |asks|
  {
    if asks == [] {
      assert Stored(asks) == {} && Arrows([]) == {};
      forall p: seq<string> ensures !Cycle({}, p) {
        if |p| >= 2 { assert (p[0], p[1]) !in Arrows([]); }
      }
    } else {
      var n := |asks| - 1;
      RunStores(asks[..n]);
      ArrowsAppend(LinksAfter(asks[..n]), asks[n].link);
      EntangleKeepsDag(LinksAfter(asks[..n]), asks[n].link, asks[n].bidirectional);
    }
  }

  /**
   In such a run a link is refused as cyclic exactly when the links stored before lead from its target back to its
   source, and refused as bidirectional exactly when it is and they do not.
   */
  lemma RefusedIff(asks: seq<Ask>, i: nat)
    requires i < |asks|
    ensures RefusalAt(asks, i) ==
      if Leads(Stored(asks[..i]), asks[i].link.target, asks[i].link.source) then Some(WouldCycle)
      else if asks[i].bidirectional then Some(BidirectionalRejected)
      else None
  {
    RunStores(asks[..i]);
  }
}
