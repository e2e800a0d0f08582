/** Policy consensus (qso_global_meta/consensus_module.py). */
module Consensus {
  // What the coordinator decides is a function of the ballots it counted; and the quorums under which no
  // two decisions over one electorate can differ.

  import opened Common
  import opened Ordering
  import Sorting

  // ----- ballots

  /** A node and the digest it backs. */
  type Ballot = (string, string)

  ghost function Backers(ballots: set<Ballot>, digest: string): set<string> {
    set b | b in ballots && b.1 == digest :: b.0
  }

  ghost function Backed(ballots: set<Ballot>): set<string> {
    set b | b in ballots :: b.1
  }

  ghost function Voters(ballots: set<Ballot>): set<string> {
    set b | b in ballots :: b.0
  }

  /** The vote table that holds exactly these ballots. */
  ghost function VotesOf(ballots: set<Ballot>): map<string, set<string>> {
    map d | d in Backed(ballots) :: Backers(ballots, d)
  }

  // ----- the ranking

  datatype Count = Count(digest: string, votes: nat)

  /** Sort key `(-votes, digest)`. */
  predicate Outranks(a: Count, b: Count) {
    a.votes > b.votes || (a.votes == b.votes && Le(a.digest, b.digest))
  }

  ghost function Counts(votes: map<string, set<string>>): set<Count> {
    set d | d in votes :: Count(d, |votes[d]|)
  }

  lemma OutranksTotal(a: Count, b: Count)
    ensures Outranks(a, b) || Outranks(b, a)
    ensures Outranks(a, b) && Outranks(b, a) ==> a == b
  {
    LeTotal(a.digest, b.digest);
  }

  lemma OutranksTransitive(a: Count, b: Count, c: Count)
    requires Outranks(a, b) && Outranks(b, c)
    ensures Outranks(a, c)
  {
    if a.votes == b.votes == c.votes { LeTransitive(a.digest, b.digest, c.digest); }
  }

  lemma OutranksIsTotalOrder()
    ensures Sorting.TotalOrder(Outranks)
  {
    forall a, b ensures Outranks(a, b) || Outranks(b, a) { OutranksTotal(a, b); }
    forall a, b, c | Outranks(a, b) && Outranks(b, c) ensures Outranks(a, c) { OutranksTransitive(a, b, c); }
  }

  /** The counts as a list, in some order. */
  ghost function Listed(counts: set<Count>): (r: seq<Count>)
    ensures NoDuplicates(r) && Elements(r) == counts
    ensures counts == {} ==> r == []
  {
    if counts == {} then []
    else
      var x :| x in counts;
      var rest := Listed(counts - {x});
      assert forall y :: y in counts <==> y == x || y in Elements(rest);
      [x] + rest
  }

  /** The counts, best first. */
  ghost function Rank(counts: set<Count>): (r: seq<Count>)
    ensures Sorting.Ordered(Outranks, r) && (forall c :: c in r <==> c in counts)
    ensures counts == {} ==> r == []
  {
    OutranksIsTotalOrder();
    Sorting.SortOrders(Outranks, Listed(counts));
    Sorting.SameElements(Sorting.Sort(Outranks, Listed(counts)), Listed(counts));
    assert forall c :: c in Listed(counts) <==> c in Elements(Listed(counts));
    Sorting.Sort(Outranks, Listed(counts))
  }

  lemma SameMultiset(a: seq<Count>, b: seq<Count>)
    requires NoDuplicates(a) && NoDuplicates(b) && Elements(a) == Elements(b)
    ensures multiset(a) == multiset(b)
  {
    OnceEach(a);
    OnceEach(b);
  }

  lemma {:induction false} OnceEach(s: seq<Count>)
    requires NoDuplicates(s)
    ensures multiset(s) == multiset(Elements(s))
    decreases |s|
  {
    if s != [] {
      var n := |s| - 1;
      OnceEach(s[..n]);
      assert s == s[..n] + [s[n]];
      assert Elements(s) == Elements(s[..n]) + {s[n]} && s[n] !in Elements(s[..n]);
    }
  }

  /** Sorting the counts, listed in any order, ranks them. */
  lemma SortedIsRank(items: seq<Count>)
    requires NoDuplicates(items)
    ensures Sorting.Sort(Outranks, items) == Rank(Elements(items))
  {
    var listed := Listed(Elements(items));
    OutranksIsTotalOrder();
    Sorting.SortOrders(Outranks, items);
    Sorting.SortOrders(Outranks, listed);
    SameMultiset(items, listed);
    forall x, y | Outranks(x, y) && Outranks(y, x) ensures x == y { OutranksTotal(x, y); }
    Sorting.OrderedUnique(Outranks, Sorting.Sort(Outranks, items), Sorting.Sort(Outranks, listed));
  }

  // ----- the coordinator

  datatype Choice<P> = Choice(digest: string, policy: P, votes: nat)
  datatype Decision<P> =
    | Undecided
    | NoVotes
    | QuorumNotMet(quorum: real, fraction: real, best: Choice<P>)
    | Accepted(chosen: Choice<P>, tally: seq<Count>)
  datatype Error = UnknownDigest | BadTotal

  /** `vote_count / total_nodes >= quorum` */
  predicate Reaches(votes: nat, total: int, quorum: real)
    requires total > 0
  {
    votes as real / total as real >= quorum
  }

  /** What `decide` returns for a ranking. */
  function Conclude<P>(tally: seq<Count>, proposals: map<string, P>, total: Option<int>,
                       quorum: real): Result<Decision<P>, Error>
    requires tally != [] ==> tally[0].digest in proposals
  {
    if tally == [] then Ok(NoVotes)
    else
      var best := Choice(tally[0].digest, proposals[tally[0].digest], tally[0].votes);
      if total.Some? && total.value <= 0 then Err(BadTotal)
      else if total.Some? && !Reaches(best.votes, total.value, quorum) then
        Ok(QuorumNotMet(quorum, best.votes as real / total.value as real, best))
      else Ok(Accepted(best, tally))
  }

  class Coordinator<P> {
    const digestOf: P -> string
    var proposals: map<string, P>
    var votes: map<string, set<string>>
    var lastDecision: Decision<P>

    ghost predicate Valid()
      reads this
    {
      votes.Keys <= proposals.Keys
    }

    constructor (digestOf: P -> string)
      ensures Valid() && this.digestOf == digestOf
      ensures State(proposals, votes) == Nothing<P>() && lastDecision == Undecided
    {
      this.digestOf := digestOf;
      proposals, votes, lastDecision := map[], map[], Undecided;
    }

    method Vote(node: string, digest: string) returns (r: Result<(), Error>)
      requires Valid()
      modifies `votes
      ensures Valid()
      ensures State(proposals, votes) == Step(digestOf, old(State(proposals, votes)), Cast(node, digest))
      ensures r == if digest in proposals then Ok(()) else Err(UnknownDigest)
    {
      if digest !in proposals {
        return Err(UnknownDigest);
      }
      ghost var before := votes;
      if digest !in votes {
        votes := votes[digest := {}];
        assert {} + {node} == {node};
      }
      votes := votes[digest := votes[digest] + {node}];
      assert votes == AddVote(before, node, digest);
      return Ok(());
    }

    method Propose(node: string, policy: P) returns (digest: string)
      requires Valid()
      modifies `proposals, `votes
      ensures Valid() && digest == digestOf(policy)
      ensures State(proposals, votes) == Step(digestOf, old(State(proposals, votes)), Event.Propose(node, policy))
    {
      digest := digestOf(policy);
      if digest !in proposals {
        proposals := proposals[digest := policy];
      }
      var voted := Vote(node, digest);
    }

    method Tally() returns (r: seq<Count>)
      ensures r == Rank(Counts(votes))
    {
      var rest, items := votes.Keys, [];
      while rest != {}
        invariant rest <= votes.Keys && NoDuplicates(items)
        invariant Elements(items) == set d | d in votes.Keys - rest :: Count(d, |votes[d]|)
        decreases rest
      {
        var d :| d in rest;
        var item := Count(d, |votes[d]|);
        assert item !in Elements(items);
        assert Elements(items + [item]) == Elements(items) + {item};
        items, rest := items + [item], rest - {d};
      }
      assert Elements(items) == Counts(votes);
      SortedIsRank(items);
      return Sorting.Sort(Outranks, items);
    }

    /** `decide`; a refused total leaves the last decision as it was. */
    method Decide(total: Option<int>, quorum: real) returns (r: Result<Decision<P>, Error>)
      requires Valid()
      modifies `lastDecision
      ensures RankedProposed(proposals, votes)
      ensures r == Conclude(Rank(Counts(votes)), proposals, total, quorum)
      ensures lastDecision == if r.Ok? then r.value else old(lastDecision)
    {
      var tally := Tally();
      TopIsProposed(proposals, votes);
      if tally == [] {
        lastDecision := NoVotes;
        return Ok(lastDecision);
      }
      var best := Choice(tally[0].digest, proposals[tally[0].digest], tally[0].votes);
      if total.Some? {
        if total.value <= 0 {
          return Err(BadTotal);
        }
        var fraction := best.votes as real / total.value as real;
        if fraction < quorum {
          lastDecision := QuorumNotMet(quorum, fraction, best);
          return Ok(lastDecision);
        }
      }
      lastDecision := Accepted(best, tally);
      return Ok(lastDecision);
    }
  }

  ghost predicate RankedProposed<P>(proposals: map<string, P>, votes: map<string, set<string>>) {
    var tally := Rank(Counts(votes)); tally != [] ==> tally[0].digest in proposals
  }

  lemma TopIsProposed<P>(proposals: map<string, P>, votes: map<string, set<string>>)
    requires votes.Keys <= proposals.Keys
    ensures RankedProposed(proposals, votes)
  {
    var tally := Rank(Counts(votes));
    if tally != [] {
      assert tally[0] in tally;
    }
  }

  // ----- runs

  datatype State<P> = State(proposals: map<string, P>, votes: map<string, set<string>>)

  datatype Event<P> = Propose(node: string, policy: P) | Cast(node: string, digest: string)

  function Nothing<P>(): State<P> {
    State(map[], map[])
  }

  function AddVote(votes: map<string, set<string>>, node: string, digest: string): map<string, set<string>> {
    votes[digest := if digest in votes then votes[digest] + {node} else {node}]
  }

  function Step<P>(digestOf: P -> string, s: State<P>, e: Event<P>): State<P> {
    match e
    case Propose(node, policy) =>
      var d := digestOf(policy);
      State(if d in s.proposals then s.proposals else s.proposals[d := policy], AddVote(s.votes, node, d))
    case Cast(node, digest) =>
      if digest in s.proposals then State(s.proposals, AddVote(s.votes, node, digest)) else s
  }

  function After<P>(digestOf: P -> string, run: seq<Event<P>>): State<P> {
    if run == [] then Nothing() else Step(digestOf, After(digestOf, run[..|run| - 1]), run[|run| - 1])
  }

  ghost predicate ProposedBefore<P>(digestOf: P -> string, run: seq<Event<P>>, digest: string) {
    exists i :: 0 <= i < |run| && run[i].Propose? && digestOf(run[i].policy) == digest
  }

  /** Event i of the run is a ballot that counts: a proposer's own, or one for a digest proposed earlier. */
  ghost predicate CountsAt<P>(digestOf: P -> string, run: seq<Event<P>>, i: nat, ballot: Ballot)
    requires i < |run|
  {
    match run[i]
    case Propose(node, policy) => ballot == (node, digestOf(policy))
    case Cast(node, digest) => ballot == (node, digest) && ProposedBefore(digestOf, run[..i], digest)
  }

  ghost predicate Counted<P>(digestOf: P -> string, run: seq<Event<P>>, ballot: Ballot) {
    exists i :: 0 <= i < |run| && CountsAt(digestOf, run, i, ballot)
  }

  ghost function Ballots<P>(digestOf: P -> string, run: seq<Event<P>>): set<Ballot> {
    if run == [] then {}
    else
      var n := |run| - 1;
      match run[n]
      case Propose(node, policy) => Ballots(digestOf, run[..n]) + {(node, digestOf(policy))}
      case Cast(node, digest) =>
        if ProposedBefore(digestOf, run[..n], digest) then Ballots(digestOf, run[..n]) + {(node, digest)}
        else Ballots(digestOf, run[..n])
  }

  lemma CountsAtPrefix<P>(digestOf: P -> string, run: seq<Event<P>>, n: nat, i: nat, ballot: Ballot)
    requires i < n <= |run|
    ensures CountsAt(digestOf, run[..n], i, ballot) <==> CountsAt(digestOf, run, i, ballot)
  {
    assert run[..n][..i] == run[..i];
  }

  /** The ballots of a run are the votes it counted, and nothing else. */
  lemma {:induction false} BallotsAreCounted<P>(digestOf: P -> string, run: seq<Event<P>>, ballot: Ballot)
    ensures ballot in Ballots(digestOf, run) <==> Counted(digestOf, run, ballot)
    decreases |run|
  {
    if run != [] {
      var n := |run| - 1;
      BallotsAreCounted(digestOf, run[..n], ballot);
      forall i | 0 <= i < n ensures CountsAt(digestOf, run[..n], i, ballot) <==> CountsAt(digestOf, run, i, ballot) {
        CountsAtPrefix(digestOf, run, n, i, ballot);
      }
      assert ballot in Ballots(digestOf, run) <==>
        ballot in Ballots(digestOf, run[..n]) || CountsAt(digestOf, run, n, ballot);
    }
  }

  lemma AddVoteIs(ballots: set<Ballot>, node: string, digest: string)
    ensures AddVote(VotesOf(ballots), node, digest) == VotesOf(ballots + {(node, digest)})
  {
    var more := ballots + {(node, digest)};
    assert Backed(more) == Backed(ballots) + {digest} by {
      forall d | d in Backed(ballots) + {digest} ensures d in Backed(more) {
        if d == digest {
          assert (node, digest) in more;
        } else {
          var b :| b in ballots && b.1 == d;
          assert b in more;
        }
      }
    }
    forall d | d in Backed(more)
      ensures Backers(more, d) == if d == digest then Backers(ballots, d) + {node} else Backers(ballots, d)
    {
      forall v | v in (if d == digest then Backers(ballots, d) + {node} else Backers(ballots, d))
        ensures v in Backers(more, d)
      {
        assert (v, d) in more;
      }
    }
    if digest !in Backed(ballots) {
      assert Backers(ballots, digest) == {};
      assert {} + {node} == {node};
    }
    var table := AddVote(VotesOf(ballots), node, digest);
    assert table.Keys == Backed(more);
    assert forall d :: d in Backed(more) ==> table[d] == Backers(more, d);
  }

  lemma ProposedSnoc<P>(digestOf: P -> string, run: seq<Event<P>>, digest: string)
    requires run != []
    ensures var n := |run| - 1; ProposedBefore(digestOf, run, digest) <==>
      ProposedBefore(digestOf, run[..n], digest) || (run[n].Propose? && digestOf(run[n].policy) == digest)
  {
    var n := |run| - 1;
    if ProposedBefore(digestOf, run[..n], digest) {
      var i :| 0 <= i < n && run[..n][i].Propose? && digestOf(run[..n][i].policy) == digest;
      assert run[i].Propose?;
    }
    if ProposedBefore(digestOf, run, digest) {
      var i :| 0 <= i < |run| && run[i].Propose? && digestOf(run[i].policy) == digest;
      if i < n { assert run[..n][i].Propose?; }
    }
  }

  /** After any run the coordinator knows the proposed digests, each with a policy of that digest. */
  lemma {:induction false} KnowsProposed<P>(digestOf: P -> string, run: seq<Event<P>>, digest: string)
    ensures digest in After(digestOf, run).proposals <==> ProposedBefore(digestOf, run, digest)
    ensures digest in After(digestOf, run).proposals ==> digestOf(After(digestOf, run).proposals[digest]) == digest
    decreases |run|
  {
    if run != [] {
      KnowsProposed(digestOf, run[..|run| - 1], digest);
      ProposedSnoc(digestOf, run, digest);
    }
  }

  /** After any run the vote table holds the counted ballots: each once, whatever their order. */
  lemma {:induction false} VotesAreBallots<P>(digestOf: P -> string, run: seq<Event<P>>)
    ensures After(digestOf, run).votes == VotesOf(Ballots(digestOf, run))
    decreases |run|
  {
    if run != [] {
      var n := |run| - 1;
      VotesAreBallots(digestOf, run[..n]);
      match run[n]
      case Propose(node, policy) => AddVoteIs(Ballots(digestOf, run[..n]), node, digestOf(policy));
      case Cast(node, digest) =>
        KnowsProposed(digestOf, run[..n], digest);
        AddVoteIs(Ballots(digestOf, run[..n]), node, digest);
    } else {
      assert VotesOf({}) == map[];
    }
  }

  lemma {:induction false} RunsAreValid<P>(digestOf: P -> string, run: seq<Event<P>>)
    ensures After(digestOf, run).votes.Keys <= After(digestOf, run).proposals.Keys
    decreases |run|
  {
    if run != [] { RunsAreValid(digestOf, run[..|run| - 1]); }
  }

  /** What `decide` answers at the end of a run. */
  ghost function DecisionAfter<P>(digestOf: P -> string, run: seq<Event<P>>, total: Option<int>,
                                  quorum: real): Result<Decision<P>, Error> {
    var s := After(digestOf, run);
    RunsAreValid(digestOf, run);
    TopIsProposed(s.proposals, s.votes);
    Conclude(Rank(Counts(s.votes)), s.proposals, total, quorum)
  }

  /** A policy proposed in one run and a different one proposed in the other have one digest. */
  ghost predicate Clash<P>(digestOf: P -> string, a: seq<Event<P>>, b: seq<Event<P>>) {
    exists i, j :: 0 <= i < |a| && 0 <= j < |b| && OneDigest(digestOf, a[i], b[j])
  }

  ghost predicate OneDigest<P>(digestOf: P -> string, x: Event<P>, y: Event<P>) {
    x.Propose? && y.Propose? && x.policy != y.policy && digestOf(x.policy) == digestOf(y.policy)
  }

  /** The policy kept under a digest was proposed in the run. */
  lemma {:induction false} KeepsAProposal<P>(digestOf: P -> string, run: seq<Event<P>>, digest: string) returns (i: nat)
    requires digest in After(digestOf, run).proposals
    ensures i < |run| && run[i].Propose? && run[i].policy == After(digestOf, run).proposals[digest]
    ensures digestOf(run[i].policy) == digest
    decreases |run|
  {
    var n := |run| - 1;
    if digest in After(digestOf, run[..n]).proposals {
      i := KeepsAProposal(digestOf, run[..n], digest);
    } else {
      i := n;
    }
  }

  /**
   Decisions depend on the counted ballots alone: not on their order, not on repeats, not on who proposed first;
   unless the two runs propose two policies of one digest.
   */
  lemma OrderAndRepeatsDoNotMatter<P>(digestOf: P -> string, a: seq<Event<P>>, b: seq<Event<P>>,
                                     total: Option<int>, quorum: real)
    requires Ballots(digestOf, a) == Ballots(digestOf, b)
    ensures DecisionAfter(digestOf, a, total, quorum) == DecisionAfter(digestOf, b, total, quorum)
      || Clash(digestOf, a, b)
  {
    VotesAreBallots(digestOf, a);
    VotesAreBallots(digestOf, b);
    var tally := Rank(Counts(After(digestOf, a).votes));
    RunsAreValid(digestOf, a);
    RunsAreValid(digestOf, b);
    TopIsProposed(After(digestOf, a).proposals, After(digestOf, a).votes);
    TopIsProposed(After(digestOf, b).proposals, After(digestOf, b).votes);
    if tally != [] {
      var i := KeepsAProposal(digestOf, a, tally[0].digest);
      var j := KeepsAProposal(digestOf, b, tally[0].digest);
      if a[i].policy != b[j].policy { assert OneDigest(digestOf, a[i], b[j]); }
    }
  }

  // ----- who wins

  ghost predicate Wins(ballots: set<Ballot>, digest: string) {
    && digest in Backed(ballots)
    && forall d :: d in Backed(ballots) ==>
      Outranks(Count(digest, |Backers(ballots, digest)|), Count(d, |Backers(ballots, d)|))
  }

  lemma TopWins(ballots: set<Ballot>)
    requires ballots != {}
    ensures var tally := Rank(Counts(VotesOf(ballots)));
      tally != [] && Wins(ballots, tally[0].digest) && tally[0].votes == |Backers(ballots, tally[0].digest)|
  {
    var votes := VotesOf(ballots);
    var tally := Rank(Counts(votes));
    var b :| b in ballots;
    assert b.1 in votes;
    assert Count(b.1, |votes[b.1]|) in tally;
    assert tally[0] in tally;
    OutranksIsTotalOrder();
    forall d | d in Backed(ballots) ensures Outranks(tally[0], Count(d, |Backers(ballots, d)|)) {
      var c := Count(d, |votes[d]|);
      assert c in tally;
      Sorting.HeadIsLeast(Outranks, tally, c);
    }
  }

  lemma WinnerUnique(ballots: set<Ballot>, d: string, e: string)
    requires Wins(ballots, d) && Wins(ballots, e)
    ensures d == e
  {
    OutranksTotal(Count(d, |Backers(ballots, d)|), Count(e, |Backers(ballots, e)|));
  }

  /** With `total` voters and this quorum, these ballots get the digest accepted. */
  ghost predicate Accepts(ballots: set<Ballot>, total: nat, quorum: real, digest: string)
    requires total > 0
  {
    Wins(ballots, digest) && Reaches(|Backers(ballots, digest)|, total, quorum)
  }

  /** `decide` accepts a digest exactly when it wins and its share reaches the quorum. */
  lemma DecideAcceptsIff<P>(digestOf: P -> string, run: seq<Event<P>>, total: nat, quorum: real, digest: string)
    requires total > 0
    ensures var r := DecisionAfter(digestOf, run, Some(total), quorum);
      (r.Ok? && r.value.Accepted? && r.value.chosen.digest == digest) <==>
        Accepts(Ballots(digestOf, run), total, quorum, digest)
  {
    var ballots := Ballots(digestOf, run);
    VotesAreBallots(digestOf, run);
    if ballots != {} {
      TopWins(ballots);
      var top := Rank(Counts(VotesOf(ballots)))[0].digest;
      if Wins(ballots, digest) { WinnerUnique(ballots, digest, top); }
    } else {
      assert VotesOf(ballots) == map[];
      assert Counts(VotesOf(ballots)) == {};
    }
  }

  /**
   What `decide` answers, from the ballots alone: no votes, a refused total, or the winner, with its backers counted and
   a policy of its digest that was proposed. The winner is accepted unless a total is given of which its backers are
   less than the quorum; the accepted answer lists every backed digest with its backers, best first.
   */
  lemma DecideExplained<P>(digestOf: P -> string, run: seq<Event<P>>, total: Option<int>, quorum: real)
    ensures var ballots, r := Ballots(digestOf, run), DecisionAfter(digestOf, run, total, quorum);
      && (ballots == {} ==> r == Ok(NoVotes))
      && (ballots != {} && total.Some? && total.value <= 0 ==> r == Err(BadTotal))
      && (ballots != {} && (total.Some? ==> total.value > 0) ==>
           && r.Ok? && (r.value.Accepted? || r.value.QuorumNotMet?)
           && var best := if r.value.Accepted? then r.value.chosen else r.value.best;
             && best.digest in Backed(ballots) && best.votes == |Backers(ballots, best.digest)|
             && (forall d :: d in Backed(ballots) ==>
                  |Backers(ballots, d)| < best.votes || (|Backers(ballots, d)| == best.votes && Le(best.digest, d)))
             && digestOf(best.policy) == best.digest
             && (exists i :: 0 <= i < |run| && run[i].Propose? && run[i].policy == best.policy)
             && (r.value.QuorumNotMet? <==> total.Some? && best.votes as real / total.value as real < quorum)
             && (r.value.QuorumNotMet? ==>
                  r.value.quorum == quorum && r.value.fraction == best.votes as real / total.value as real)
             && (r.value.Accepted? ==> ListsBacked(ballots, r.value.tally)))
  {
    var ballots := Ballots(digestOf, run);
    VotesAreBallots(digestOf, run);
    RunsAreValid(digestOf, run);
    if ballots == {} {
      assert VotesOf(ballots) == map[];
      assert Counts(VotesOf(ballots)) == {};
    } else {
      TopWins(ballots);
      var tally := Rank(Counts(VotesOf(ballots)));
      RankListsBacked(ballots);
      TopIsProposed(After(digestOf, run).proposals, After(digestOf, run).votes);
      var i := KeepsAProposal(digestOf, run, tally[0].digest);
    }
  }

  ghost predicate ListsBacked(ballots: set<Ballot>, tally: seq<Count>) {
    && (forall c :: c in tally <==> c.digest in Backed(ballots) && c.votes == |Backers(ballots, c.digest)|)
    && Sorting.Ordered(Outranks, tally)
  }

  lemma RankListsBacked(ballots: set<Ballot>)
    ensures ListsBacked(ballots, Rank(Counts(VotesOf(ballots))))
  {
    var votes := VotesOf(ballots);
    forall c ensures c in Counts(votes) <==> c.digest in Backed(ballots) && c.votes == |Backers(ballots, c.digest)| {
      if c.digest in Backed(ballots) && c.votes == |Backers(ballots, c.digest)| {
        assert c == Count(c.digest, |votes[c.digest]|);
      }
    }
  }

  // ----- quorum intersection

  /** An electorate of `total`: every voter is in it, and no voter backs two digests. */
  ghost predicate OneVoteEach(ballots: set<Ballot>, total: nat) {
    && |Voters(ballots)| <= total
    && forall b, c :: b in ballots && c in ballots && b.0 == c.0 ==> b.1 == c.1
  }

  /** No two disjoint groups of voters can both reach the quorum. */
  ghost predicate QuorumsMeet(total: nat, quorum: real)
    requires total > 0
  {
    forall k: nat :: 1 <= k <= total && Reaches(k, total, quorum) ==> 2 * k > total
  }

  lemma BackersVote(ballots: set<Ballot>, all: set<Ballot>, digest: string)
    requires ballots <= all
    ensures Backers(ballots, digest) <= Backers(all, digest) <= Voters(all)
    ensures |Backers(ballots, digest)| <= |Backers(all, digest)| <= |Voters(all)|
  {
    forall v | v in Backers(all, digest) ensures v in Voters(all) { assert (v, digest) in all; }
    SubsetSize(Backers(ballots, digest), Backers(all, digest));
    SubsetSize(Backers(all, digest), Voters(all));
  }

  /** Voters with one vote each: the backers of two digests are different people. */
  lemma TwoDigestsShareTheElectorate(all: set<Ballot>, total: nat, d: string, e: string)
    requires OneVoteEach(all, total) && d != e
    ensures |Backers(all, d)| + |Backers(all, e)| <= total
  {
    var a, b := Backers(all, d), Backers(all, e);
    assert forall v :: v in a ==> (v, d) in all;
    assert forall v :: v in b ==> (v, e) in all;
    assert a !! b;
    BackersVote(all, all, d);
    BackersVote(all, all, e);
    assert |a + b| == |a| + |b|;
    SubsetSize(a + b, Voters(all));
  }

  lemma WinnerHasVotes(ballots: set<Ballot>, digest: string)
    requires Wins(ballots, digest)
    ensures |Backers(ballots, digest)| >= 1
  {
    var b :| b in ballots && b.1 == digest;
    assert b.0 in Backers(ballots, digest);
  }

  /** Agreement: coordinators that saw different parts of one electorate never accept different digests. */
  lemma Agreement(first: set<Ballot>, second: set<Ballot>, total: nat, quorum: real, d: string, e: string)
    requires total > 0 && OneVoteEach(first + second, total) && QuorumsMeet(total, quorum)
    requires Accepts(first, total, quorum, d) && Accepts(second, total, quorum, e)
    ensures d == e
  {
    if d != e {
      var all := first + second;
      WinnerHasVotes(first, d);
      WinnerHasVotes(second, e);
      BackersVote(first, all, d);
      BackersVote(second, all, e);
      TwoDigestsShareTheElectorate(all, total, d, e);
    }
  }

  /** Stability: once accepted, a digest stays accepted while more of the electorate votes. */
  lemma AcceptedStays(earlier: set<Ballot>, later: set<Ballot>, total: nat, quorum: real, digest: string)
    requires total > 0 && earlier <= later && OneVoteEach(later, total) && QuorumsMeet(total, quorum)
    requires Accepts(earlier, total, quorum, digest)
    ensures Accepts(later, total, quorum, digest)
  {
    WinnerHasVotes(earlier, digest);
    BackersVote(earlier, later, digest);
    ReachesMore(|Backers(earlier, digest)|, |Backers(later, digest)|, total, quorum);
    var b :| b in earlier && b.1 == digest;
    assert b in later;
    forall d | d in Backed(later)
      ensures Outranks(Count(digest, |Backers(later, digest)|), Count(d, |Backers(later, d)|))
    {
      if d != digest { TwoDigestsShareTheElectorate(later, total, digest, d); } else { LeTotal(d, d); }
    }
  }

  lemma ReachesMore(k: nat, m: nat, total: nat, quorum: real)
    requires total > 0 && k <= m && Reaches(k, total, quorum)
    ensures Reaches(m, total, quorum)
  {
    var n := total as real;
    assert m as real / n - k as real / n == (m - k) as real / n;
    assert (m - k) as real / n >= 0.0;
  }

  /** Any quorum above one half is such a quorum. */
  lemma AboveHalfMeets(total: nat, quorum: real)
    requires total > 0 && quorum > 0.5
    ensures QuorumsMeet(total, quorum)
  {
    forall k: nat | 1 <= k <= total && Reaches(k, total, quorum) ensures 2 * k > total {
      var share := k as real / total as real;
      assert share * total as real == k as real;
      if 2 * k <= total { HalfAtMost(share, total as real, k as real); }
    }
  }

  lemma NotAbove(x: real, y: real)
    requires y > 0.0 && x * y <= 0.0
    ensures x <= 0.0
  {
  }

  lemma HalfAtMost(share: real, total: real, k: real)
    requires total > 0.0 && share * total == k && 2.0 * k <= total
    ensures share <= 0.5
  {
    assert (share - 0.5) * total <= 0.0;
    NotAbove(share - 0.5, total);
  }

  /**
   Every electorate of this size, however its votes are split between two coordinators, is answered
   with one digest.
   */
  ghost predicate NeverDisagrees(total: nat, quorum: real)
    requires total > 0
  {
    forall first: set<Ballot>, second: set<Ballot>, d: string, e: string ::
      OneVoteEach(first + second, total) && Accepts(first, total, quorum, d) && Accepts(second, total, quorum, e) ==>
        d == e
  }

  /** The condition is exact: a quorum that two disjoint groups can reach lets two digests be accepted. */
  lemma NeverDisagreesIff(total: nat, quorum: real)
    requires total > 0
    ensures NeverDisagrees(total, quorum) <==> QuorumsMeet(total, quorum)
  {
    if QuorumsMeet(total, quorum) {
      forall first: set<Ballot>, second: set<Ballot>, d: string, e: string |
        OneVoteEach(first + second, total) && Accepts(first, total, quorum, d) && Accepts(second, total, quorum, e)
        ensures d == e
      {
        Agreement(first, second, total, quorum, d, e);
      }
    } else {
      var k: nat :| 1 <= k <= total && Reaches(k, total, quorum) && 2 * k <= total;
      var first, second := Block(0, k, "a"), Block(k, 2 * k, "b");
      BlockWins(0, k, "a");
      BlockWins(k, 2 * k, "b");
      BlocksOneVoteEach(k, total);
      assert Accepts(first, total, quorum, "a") && Accepts(second, total, quorum, "b");
    }
  }

  function Name(i: nat): (s: string)
    ensures |s| == i
  {
    seq(i, _ => 'n')
  }

  /** Voters lo..hi, all for one digest. */
  ghost function Block(lo: nat, hi: nat, digest: string): set<Ballot> {
    set i: nat | lo <= i < hi :: (Name(i), digest)
  }

  ghost function Names(lo: nat, hi: nat): set<string> {
    set i: nat | lo <= i < hi :: Name(i)
  }

  lemma {:induction false} NamesCount(lo: nat, hi: nat)
    requires lo <= hi
    ensures |Names(lo, hi)| == hi - lo
    decreases hi
  {
    if lo < hi {
      NamesCount(lo, hi - 1);
      assert Names(lo, hi) == Names(lo, hi - 1) + {Name(hi - 1)};
      assert Name(hi - 1) !in Names(lo, hi - 1);
    } else {
      assert Names(lo, hi) == {};
    }
  }

  lemma BlockWins(lo: nat, hi: nat, digest: string)
    requires lo < hi
    ensures Wins(Block(lo, hi, digest), digest) && |Backers(Block(lo, hi, digest), digest)| == hi - lo
  {
    var block := Block(lo, hi, digest);
    assert (Name(lo), digest) in block;
    assert Backers(block, digest) == Names(lo, hi) by {
      forall i: nat | lo <= i < hi ensures Name(i) in Backers(block, digest) { assert (Name(i), digest) in block; }
    }
    NamesCount(lo, hi);
    LeTotal(digest, digest);
  }

  lemma BlocksOneVoteEach(k: nat, total: nat)
    requires 2 * k <= total
    ensures OneVoteEach(Block(0, k, "a") + Block(k, 2 * k, "b"), total)
  {
    var all := Block(0, k, "a") + Block(k, 2 * k, "b");
    forall v | v in Voters(all) ensures v in Names(0, 2 * k) {
      var b :| b in all && b.0 == v;
    }
    NamesCount(0, 2 * k);
    SubsetSize(Voters(all), Names(0, 2 * k));
  }

  /**
   A run that only grows, over one electorate: after the first accepting decision, every later one
   accepts the same digest.
   */
  lemma DecisionsStand<P>(digestOf: P -> string, run: seq<Event<P>>, n: nat, total: nat, quorum: real, digest: string)
    requires n <= |run| && total > 0 && quorum > 0.5 && OneVoteEach(Ballots(digestOf, run), total)
    requires var r := DecisionAfter(digestOf, run[..n], Some(total), quorum);
      r.Ok? && r.value.Accepted? && r.value.chosen.digest == digest
    ensures var r := DecisionAfter(digestOf, run, Some(total), quorum);
      r.Ok? && r.value.Accepted? && r.value.chosen.digest == digest
  {
    AboveHalfMeets(total, quorum);
    DecideAcceptsIff(digestOf, run[..n], total, quorum, digest);
    BallotsGrow(digestOf, run, n);
    AcceptedStays(Ballots(digestOf, run[..n]), Ballots(digestOf, run), total, quorum, digest);
    DecideAcceptsIff(digestOf, run, total, quorum, digest);
  }

  lemma {:induction false} BallotsGrow<P>(digestOf: P -> string, run: seq<Event<P>>, n: nat)
    requires n <= |run|
    ensures Ballots(digestOf, run[..n]) <= Ballots(digestOf, run)
    decreases |run|
  {
    if n < |run| {
      BallotsGrow(digestOf, run[..|run| - 1], n);
      assert run[..|run| - 1][..n] == run[..n];
    } else {
      assert run[..n] == run;
    }
  }
}
