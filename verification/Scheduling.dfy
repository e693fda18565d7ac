/** Scheduler: scoring nodes and spreading replicas over them. Scores are exact rationals. */
module Scheduling {
  import opened Sequences

  datatype NodeStatus = Online | Registering | Offline

  datatype Resources = Resources(
    cpuTotal: int, cpuUsed: int, memoryTotal: int, memoryUsed: int, diskTotal: int, diskUsed: int)
  {
    predicate HasRoom() {
      cpuTotal > cpuUsed && memoryTotal > memoryUsed && diskTotal > diskUsed
    }
  }

  datatype Node = Node(
    id: string, hostname: string, status: NodeStatus, isBuilder: bool, capabilities: seq<string>, resources: Resources)

  /** What a service asks of its node: the capabilities of its row and of its manifest entry. */
  datatype Workload = Workload(rowCapabilities: seq<string>, manifestCapabilities: seq<string>, isBuild: bool)

  datatype NodeScore = NodeScore(node: Node, score: real)

  /** `[...new Set(xs)]`. */
  function Unique(xs: seq<string>): (r: seq<string>)
    ensures forall x :: x in r <==> x in xs
    ensures Distinct(r)
  {
    if xs == [] then []
    else
      var rest := Unique(xs[..|xs| - 1]);
      var last := xs[|xs| - 1];
      assert xs == xs[..|xs| - 1] + [last];
      if last in rest then rest else rest + [last]
  }

  function Required(w: Workload): seq<string> {
    Unique(w.rowCapabilities + w.manifestCapabilities)
  }

  function Offered(node: Node): string -> bool {
    (capability: string) => capability in node.capabilities
  }

  function Share(total: int, used: int): real {
    (total - used) as real / (if total > 1 then total else 1) as real
  }

  /** The weighted free shares of a node. */
  function Headroom(r: Resources): real {
    Share(r.cpuTotal, r.cpuUsed) * 0.4 + Share(r.memoryTotal, r.memoryUsed) * 0.4 + Share(r.diskTotal, r.diskUsed) * 0.2
  }

  function ScoreNode(node: Node, w: Workload): Option<NodeScore> {
    var required := Required(w);
    var matched := Filter(required, Offered(node));
    if |matched| != |required| then None
    else if !node.resources.HasRoom() then None
    else Some(NodeScore(node, Headroom(node.resources) + |matched| as real * 0.05))
  }

  lemma {:induction false} FilterKeepsAllIff<T(!new)>(xs: seq<T>, p: T -> bool)
    ensures |Filter(xs, p)| == |xs| <==> forall x :: x in xs ==> p(x)
  {
    if xs != [] {
      FilterKeepsAllIff(xs[1..], p);
    }
  }

  /** A node is scored exactly when it has every required capability and free cpu, memory and disk. */
  lemma ScoredIff(node: Node, w: Workload)
    ensures ScoreNode(node, w).Some? <==>
            && (forall c :: c in w.rowCapabilities || c in w.manifestCapabilities ==> c in node.capabilities)
            && node.resources.cpuTotal > node.resources.cpuUsed
            && node.resources.memoryTotal > node.resources.memoryUsed
            && node.resources.diskTotal > node.resources.diskUsed
    ensures ScoreNode(node, w).Some? ==> ScoreNode(node, w).value.node == node
  {
    var required := Required(w);
    FilterKeepsAllIff(required, Offered(node));
    forall c
      ensures c in required <==> c in w.rowCapabilities || c in w.manifestCapabilities
    {
      assert c in required <==> c in w.rowCapabilities + w.manifestCapabilities;
    }
    assert (forall c :: c in required ==> Offered(node)(c)) <==>
           (forall c :: c in w.rowCapabilities || c in w.manifestCapabilities ==> c in node.capabilities);
  }

  /** Every scored node matches all required capabilities, so the capability bonus never decides a placement. */
  lemma BonusNeverDecides(a: Node, b: Node, w: Workload)
    requires ScoreNode(a, w).Some? && ScoreNode(b, w).Some?
    ensures ScoreNode(a, w).value.score > ScoreNode(b, w).value.score <==> Headroom(a.resources) > Headroom(b.resources)
  {
  }

  // ---- ranking ----------------------------------------------------------------------------

  function Scored(nodes: seq<Node>, w: Workload): seq<NodeScore> {
    if nodes == [] then []
    else
      var rest := Scored(nodes[1..], w);
      match ScoreNode(nodes[0], w)
      case None => rest
      case Some(score) => [score] + rest
  }

  function InsertByScore(x: NodeScore, sorted: seq<NodeScore>): (r: seq<NodeScore>)
    ensures r != []
  {
    if sorted == [] || sorted[0].score <= x.score then [x] + sorted
    else [sorted[0]] + InsertByScore(x, sorted[1..])
  }

  /** The stable sort by descending score. */
  function SortByScore(xs: seq<NodeScore>): seq<NodeScore> {
    if xs == [] then [] else InsertByScore(xs[0], SortByScore(xs[1..]))
  }

  function ScoreAll(nodes: seq<Node>, w: Workload): seq<NodeScore> {
    SortByScore(Scored(nodes, w))
  }

  ghost predicate Descending(xs: seq<NodeScore>) {
    forall i, j :: 0 <= i < j < |xs| ==> xs[i].score >= xs[j].score
  }

  lemma {:induction false} InsertContents(x: NodeScore, sorted: seq<NodeScore>)
    ensures multiset(InsertByScore(x, sorted)) == multiset(sorted) + multiset{x}
  {
    if sorted != [] && sorted[0].score > x.score {
      InsertContents(x, sorted[1..]);
      assert sorted == [sorted[0]] + sorted[1..];
    }
  }

  lemma {:induction false} InsertDescends(x: NodeScore, sorted: seq<NodeScore>)
    requires Descending(sorted)
    ensures Descending(InsertByScore(x, sorted))
    ensures InsertByScore(x, sorted)[0].score <=
            if sorted == [] || sorted[0].score <= x.score then x.score else sorted[0].score
  {
    if sorted != [] && sorted[0].score > x.score {
      InsertDescends(x, sorted[1..]);
      HeadIsTop(sorted[0], InsertByScore(x, sorted[1..]));
    }
  }

  lemma HeadIsTop(head: NodeScore, rest: seq<NodeScore>)
    requires Descending(rest) && (rest != [] ==> rest[0].score <= head.score)
    ensures Descending([head] + rest)
  {
  }

  lemma {:induction false} SortRanks(xs: seq<NodeScore>)
    ensures Descending(SortByScore(xs)) && multiset(SortByScore(xs)) == multiset(xs)
  {
    if xs != [] {
      SortRanks(xs[1..]);
      InsertDescends(xs[0], SortByScore(xs[1..]));
      InsertContents(xs[0], SortByScore(xs[1..]));
      assert xs == [xs[0]] + xs[1..];
    }
  }

  lemma {:induction false} ScoredMember(nodes: seq<Node>, w: Workload, s: NodeScore)
    ensures s in Scored(nodes, w) <==> exists n :: n in nodes && ScoreNode(n, w) == Some(s)
  {
    if nodes != [] {
      ScoredMember(nodes[1..], w, s);
    }
  }

  lemma RankedMember(nodes: seq<Node>, w: Workload, s: NodeScore)
    ensures s in ScoreAll(nodes, w) <==> s.node in nodes && ScoreNode(s.node, w) == Some(s)
  {
    SortRanks(Scored(nodes, w));
    ScoredMember(nodes, w, s);
    assert s in ScoreAll(nodes, w) <==> s in multiset(Scored(nodes, w));
    if exists n :: n in nodes && ScoreNode(n, w) == Some(s) {
      var n :| n in nodes && ScoreNode(n, w) == Some(s);
      ScoredIff(n, w);
    }
  }

  ghost predicate DistinctNodes(nodes: seq<Node>) {
    forall i, j :: 0 <= i < j < |nodes| ==> nodes[i].id != nodes[j].id
  }

  lemma {:induction false} ScoredDistinct(nodes: seq<Node>, w: Workload)
    requires DistinctNodes(nodes)
    ensures forall i, j :: 0 <= i < j < |Scored(nodes, w)| ==>
            Scored(nodes, w)[i].node.id != Scored(nodes, w)[j].node.id
  {
    if nodes != [] {
      ScoredDistinct(nodes[1..], w);
      var rest := Scored(nodes[1..], w);
      forall j | 0 <= j < |rest| ensures rest[j].node.id != nodes[0].id {
        ScoredMember(nodes[1..], w, rest[j]);
        var n :| n in nodes[1..] && ScoreNode(n, w) == Some(rest[j]);
      }
    }
  }

  lemma {:induction false} DistinctCounts(xs: seq<NodeScore>)
    requires forall i, j :: 0 <= i < j < |xs| ==> xs[i].node.id != xs[j].node.id
    ensures forall s :: multiset(xs)[s] <= 1
  {
    if xs != [] {
      DistinctCounts(xs[1..]);
      assert xs == [xs[0]] + xs[1..];
      assert xs[0] !in xs[1..];
    }
  }

  lemma RepeatCounts(xs: seq<NodeScore>, i: nat, j: nat)
    requires i < j < |xs| && xs[i] == xs[j]
    ensures multiset(xs)[xs[i]] >= 2
  {
    assert xs == xs[..j] + xs[j..];
    assert xs[..j][i] in multiset(xs[..j]) && xs[j..][0] in multiset(xs[j..]);
  }

  /** The ranking lists different nodes. */
  lemma RankedDistinct(nodes: seq<Node>, w: Workload, i: nat, j: nat)
    requires DistinctNodes(nodes) && i < j < |ScoreAll(nodes, w)|
    ensures ScoreAll(nodes, w)[i].node.id != ScoreAll(nodes, w)[j].node.id
  {
    var ranked, scored := ScoreAll(nodes, w), Scored(nodes, w);
    SortRanks(scored);
    ScoredDistinct(nodes, w);
    DistinctCounts(scored);
    if ranked[i] == ranked[j] {
      RepeatCounts(ranked, i, j);
    } else {
      assert ranked[i] in multiset(scored) && ranked[j] in multiset(scored);
    }
  }

  // ---- replicas ---------------------------------------------------------------------------

  function RoundRobin(ranked: seq<NodeScore>, count: nat): (r: seq<string>)
    requires ranked != []
    ensures |r| == count && forall i :: 0 <= i < count ==> r[i] == ranked[i % |ranked|].node.id
  {
    seq(count, i requires 0 <= i => ranked[i % |ranked|].node.id)
  }

  function ReplicaNodes(nodes: seq<Node>, w: Workload, replicaCount: int): seq<string> {
    var ranked := ScoreAll(nodes, w);
    if ranked == [] || replicaCount < 1 then [] else RoundRobin(ranked, replicaCount)
  }

  method ScheduleReplicaNodes(nodes: seq<Node>, w: Workload, replicaCount: int) returns (assignments: seq<string>)
    ensures assignments == ReplicaNodes(nodes, w, replicaCount)
  {
    var scores := ScoreAll(nodes, w);
    if scores == [] || replicaCount < 1 {
      return [];
    }
    assignments := [];
    for index := 0 to replicaCount
      invariant assignments == RoundRobin(scores, index)
    {
      var pick := scores[index % |scores|];
      assignments := assignments + [pick.node.id];
    }
  }

  lemma {:induction false} Multiples(a: nat, b: nat, n: nat)
    requires a < b
    ensures a * n + n <= b * n
  {
    if b == a + 1 {
      assert (a + 1) * n == a * n + n;
    } else {
      Multiples(a, b - 1, n);
      assert b * n == (b - 1) * n + n;
    }
  }

  lemma QuotientIs(x: nat, n: nat, q: nat, r: nat)
    requires n > 0 && x == q * n + r && r < n
    ensures x / n == q && x % n == r
  {
    if x / n > q {
      Multiples(q, x / n, n);
    } else if x / n < q {
      Multiples(x / n, q, n);
    }
  }

  /** How many of `count` round-robin picks among `n` fall on rank `rank`. */
  function Fair(count: nat, n: nat, rank: nat): nat
    requires n > 0
  {
    count / n + (if rank < count % n then 1 else 0)
  }

  lemma NextQuotient(count: nat, n: nat)
    requires n > 0
    ensures (count + 1) / n == count / n + (if count % n == n - 1 then 1 else 0)
    ensures (count + 1) % n == if count % n == n - 1 then 0 else count % n + 1
  {
    var q, r := count / n, count % n;
    var full := q * n;
    assert count == full + r;
    if r == n - 1 {
      assert (q + 1) * n == full + n;
      QuotientIs(count + 1, n, q + 1, 0);
    } else {
      QuotientIs(count + 1, n, q, r + 1);
    }
  }

  lemma NextPick(count: nat, n: nat, rank: nat)
    requires rank < n
    ensures Fair(count + 1, n, rank) == Fair(count, n, rank) + (if count % n == rank then 1 else 0)
  {
    NextQuotient(count, n);
  }

  lemma CountSnoc(xs: seq<string>, x: string, y: string)
    ensures multiset(xs + [x])[y] == multiset(xs)[y] + (if x == y then 1 else 0)
  {
  }

  lemma {:induction false} RoundRobinCounts(ranked: seq<NodeScore>, count: nat, rank: nat)
    requires forall i, j :: 0 <= i < j < |ranked| ==> ranked[i].node.id != ranked[j].node.id
    requires rank < |ranked|
    ensures multiset(RoundRobin(ranked, count))[ranked[rank].node.id] == Fair(count, |ranked|, rank)
  {
    if count == 0 {
      assert RoundRobin(ranked, 0) == [];
    } else {
      var k := (count - 1) % |ranked|;
      RoundRobinCounts(ranked, count - 1, rank);
      NextPick(count - 1, |ranked|, rank);
      assert RoundRobin(ranked, count) == RoundRobin(ranked, count - 1) + [ranked[k].node.id];
      CountSnoc(RoundRobin(ranked, count - 1), ranked[k].node.id, ranked[rank].node.id);
      assert k < rank || k == rank || rank < k;
    }
  }

  /**
   * Fair placement. Of k replicas over n scored nodes, the node of rank r gets k / n of them, and one more
   * if r < k % n. So counts differ by at most one and a better-scored node never gets fewer.
   */
  lemma PlacementIsFair(nodes: seq<Node>, w: Workload, replicaCount: nat, rank: nat)
    requires DistinctNodes(nodes) && rank < |ScoreAll(nodes, w)|
    ensures var ranked := ScoreAll(nodes, w);
            multiset(ReplicaNodes(nodes, w, replicaCount))[ranked[rank].node.id] ==
            replicaCount / |ranked| + (if rank < replicaCount % |ranked| then 1 else 0)
    ensures forall better :: 0 <= better < rank ==>
              ScoreAll(nodes, w)[better].score >= ScoreAll(nodes, w)[rank].score
  {
    var ranked := ScoreAll(nodes, w);
    SortRanks(Scored(nodes, w));
    forall i, j | 0 <= i < j < |ranked|
      ensures ranked[i].node.id != ranked[j].node.id
    {
      RankedDistinct(nodes, w, i, j);
    }
    RoundRobinCounts(ranked, replicaCount, rank);
    if replicaCount == 0 {
      assert multiset(ReplicaNodes(nodes, w, 0)) == multiset{};
    }
  }

  /** Replicas go only to nodes that can take them; nothing is placed exactly when no node can or none is asked for. */
  lemma PlacementIsSound(nodes: seq<Node>, w: Workload, replicaCount: int)
    ensures forall id :: id in ReplicaNodes(nodes, w, replicaCount) ==>
              exists n :: n in nodes && n.id == id && ScoreNode(n, w).Some?
    ensures |ReplicaNodes(nodes, w, replicaCount)| ==
            if replicaCount >= 1 && (exists n :: n in nodes && ScoreNode(n, w).Some?) then replicaCount else 0
  {
    var ranked := ScoreAll(nodes, w);
    forall s | s in ranked ensures s.node in nodes && ScoreNode(s.node, w).Some? {
      RankedMember(nodes, w, s);
    }
    if exists n :: n in nodes && ScoreNode(n, w).Some? {
      var n :| n in nodes && ScoreNode(n, w).Some?;
      ScoredIff(n, w);
      RankedMember(nodes, w, ScoreNode(n, w).value);
    }
    assert ranked == [] || ranked[0] in ranked;
  }

  // ---- one service ------------------------------------------------------------------------

  predicate Eligible(node: Node, w: Workload) {
    (node.status == Online || node.status == Registering) && (w.isBuild || !node.isBuilder)
  }

  function IsEligible(w: Workload): Node -> bool {
    (node: Node) => Eligible(node, w)
  }

  function Schedule(nodes: seq<Node>, w: Workload): Option<NodeScore> {
    var scores := ScoreAll(Filter(nodes, IsEligible(w)), w);
    if scores == [] then None else Some(scores[0])
  }

  /** The chosen node is eligible, can take the service and scores best; none is chosen only if none qualifies. */
  lemma ScheduleIsBest(nodes: seq<Node>, w: Workload)
    ensures Schedule(nodes, w).None? <==> forall n :: n in nodes && Eligible(n, w) ==> ScoreNode(n, w).None?
    ensures Schedule(nodes, w).Some? ==>
              var best := Schedule(nodes, w).value;
              && best.node in nodes && Eligible(best.node, w) && ScoreNode(best.node, w) == Some(best)
              && best.node.status != Offline && (best.node.isBuilder ==> w.isBuild)
              && (forall n :: n in nodes && Eligible(n, w) && ScoreNode(n, w).Some? ==>
                    ScoreNode(n, w).value.score <= best.score)
  {
    var eligible := Filter(nodes, IsEligible(w));
    var scores := ScoreAll(eligible, w);
    SortRanks(Scored(eligible, w));
    forall n | n in nodes && Eligible(n, w) && ScoreNode(n, w).Some?
      ensures ScoreNode(n, w).value in scores
    {
      ScoredIff(n, w);
      RankedMember(eligible, w, ScoreNode(n, w).value);
    }
    if scores != [] {
      assert scores[0] in scores;
      RankedMember(eligible, w, scores[0]);
      forall s | s in scores ensures s.score <= scores[0].score {
        var i :| 0 <= i < |scores| && scores[i] == s;
      }
    }
  }

  // ---- what the ranking measures ------------------------------------------------------------

  /** The share of a resource that is free; a total below one counts as one. */
  predicate IsFreeShare(total: int, used: int, share: real) {
    share * (if total > 1 then total else 1) as real == (total - used) as real
  }

  lemma FreeShareIs(total: int, used: int, share: real)
    requires IsFreeShare(total, used, share)
    ensures Share(total, used) == share
  {
  }

  /**
   * A node's score: its free shares of cpu and memory count twice as much as that of its disk, and each different
   * capability asked for adds a twentieth.
   */
  lemma ScoreMeasures(node: Node, w: Workload, cpu: real, memory: real, disk: real)
    requires ScoreNode(node, w).Some?
    requires IsFreeShare(node.resources.cpuTotal, node.resources.cpuUsed, cpu)
    requires IsFreeShare(node.resources.memoryTotal, node.resources.memoryUsed, memory)
    requires IsFreeShare(node.resources.diskTotal, node.resources.diskUsed, disk)
    ensures 20.0 * ScoreNode(node, w).value.score ==
            8.0 * cpu + 8.0 * memory + 4.0 * disk
            + |Elements(w.rowCapabilities) + Elements(w.manifestCapabilities)| as real
  {
    var required := Required(w);
    FreeShareIs(node.resources.cpuTotal, node.resources.cpuUsed, cpu);
    FreeShareIs(node.resources.memoryTotal, node.resources.memoryUsed, memory);
    FreeShareIs(node.resources.diskTotal, node.resources.diskUsed, disk);
    DistinctSize(required);
    forall c ensures c in Elements(required) <==> c in w.rowCapabilities || c in w.manifestCapabilities {
      assert c in required <==> c in w.rowCapabilities + w.manifestCapabilities;
    }
    assert Elements(required) == Elements(w.rowCapabilities) + Elements(w.manifestCapabilities);
    FilterKeepsAllIff(required, Offered(node));
  }

  /** Of two nodes in the ranking the earlier one has at least as much room, cpu and memory weighing double. */
  lemma RankingMeasuresRoom(
    nodes: seq<Node>, w: Workload, i: nat, j: nat, a: (real, real, real), b: (real, real, real))
    requires i < j < |ScoreAll(nodes, w)|
    requires HasShares(ScoreAll(nodes, w)[i].node.resources, a) && HasShares(ScoreAll(nodes, w)[j].node.resources, b)
    ensures 2.0 * a.0 + 2.0 * a.1 + a.2 >= 2.0 * b.0 + 2.0 * b.1 + b.2
  {
    var ranked := ScoreAll(nodes, w);
    SortRanks(Scored(nodes, w));
    assert ranked[i] in ranked && ranked[j] in ranked;
    RankedMember(nodes, w, ranked[i]);
    RankedMember(nodes, w, ranked[j]);
    ScoreMeasures(ranked[i].node, w, a.0, a.1, a.2);
    ScoreMeasures(ranked[j].node, w, b.0, b.1, b.2);
  }

  /** The free shares of cpu, memory and disk. */
  predicate HasShares(r: Resources, shares: (real, real, real)) {
    && IsFreeShare(r.cpuTotal, r.cpuUsed, shares.0)
    && IsFreeShare(r.memoryTotal, r.memoryUsed, shares.1)
    && IsFreeShare(r.diskTotal, r.diskUsed, shares.2)
  }

  function ScoresAt(score: real): NodeScore -> bool {
    (s: NodeScore) => s.score == score
  }

  lemma {:induction false} InsertKeepsTies(x: NodeScore, sorted: seq<NodeScore>, score: real)
    requires Descending(sorted)
    ensures Filter(InsertByScore(x, sorted), ScoresAt(score)) == Filter([x] + sorted, ScoresAt(score))
  {
    if sorted != [] && sorted[0].score > x.score {
      InsertKeepsTies(x, sorted[1..], score);
      var p := ScoresAt(score);
      assert sorted == [sorted[0]] + sorted[1..];
      FilterCons(sorted[0], InsertByScore(x, sorted[1..]), p);
      FilterCons(x, sorted[1..], p);
      FilterCons(x, sorted, p);
      FilterCons(sorted[0], sorted[1..], p);
    }
  }

  /** Nodes with the same score are ranked in the order they are listed in. */
  lemma {:induction false} TiesKeepTheirOrder(xs: seq<NodeScore>, score: real)
    ensures Filter(SortByScore(xs), ScoresAt(score)) == Filter(xs, ScoresAt(score))
  {
    if xs != [] {
      TiesKeepTheirOrder(xs[1..], score);
      SortRanks(xs[1..]);
      InsertKeepsTies(xs[0], SortByScore(xs[1..]), score);
      FilterCons(xs[0], SortByScore(xs[1..]), ScoresAt(score));
      FilterCons(xs[0], xs[1..], ScoresAt(score));
      assert xs == [xs[0]] + xs[1..];
    }
  }

  // ---- eligible nodes for replicas ----------------------------------------------------------

  /** Replica placement filters no node itself: handed only an ineligible node that scores, it places there. */
  lemma ReplicasIgnoreStatus(node: Node, w: Workload)
    requires ScoreNode(node, w).Some? && !Eligible(node, w)
    ensures ReplicaNodes([node], w, 1) == [node.id] && Schedule([node], w).None?
  {
    PlacementIsSound([node], w, 1);
    ScheduleIsBest([node], w);
    assert ReplicaNodes([node], w, 1)[0] in ReplicaNodes([node], w, 1);
  }

  /** Every replica is placed on a node of the list that is eligible. */
  ghost predicate AllEligible(nodes: seq<Node>, w: Workload, assignments: seq<string>) {
    forall n :: n in nodes && n.id in assignments ==> Eligible(n, w)
  }

  function Min(a: nat, b: nat): nat {
    if a < b then a else b
  }

  lemma SameNode(nodes: seq<Node>, a: Node, b: Node)
    requires DistinctNodes(nodes) && a in nodes && b in nodes && a.id == b.id
    ensures a == b
  {
  }

  /** The nodes replicas are placed on are those of the first ranks. */
  lemma PlacedRanks(nodes: seq<Node>, w: Workload, replicaCount: nat, n: Node)
    requires DistinctNodes(nodes) && n in nodes
    ensures n.id in ReplicaNodes(nodes, w, replicaCount) <==>
            exists r :: 0 <= r < Min(replicaCount, |ScoreAll(nodes, w)|) && ScoreAll(nodes, w)[r].node == n
  {
    var ranked, assignments := ScoreAll(nodes, w), ReplicaNodes(nodes, w, replicaCount);
    forall r | 0 <= r < |ranked| ensures ranked[r].node in nodes {
      RankedMember(nodes, w, ranked[r]);
    }
    if n.id in assignments {
      var i :| 0 <= i < |assignments| && assignments[i] == n.id;
      var r := i % |ranked|;
      SmallRest(i, |ranked|);
      SameNode(nodes, ranked[r].node, n);
    }
    if r: nat :| r < Min(replicaCount, |ranked|) && ranked[r].node == n {
      SmallRest(r, |ranked|);
      assert assignments[r] == n.id;
    }
  }

  lemma SmallRest(i: nat, n: nat)
    requires n > 0
    ensures i % n <= i && i % n < n && (i < n ==> i % n == i)
  {
    if i >= n {
      assert i % n < n;
    } else {
      QuotientIs(i, n, 0, i);
    }
  }

  /** All of k replicas over n scored nodes land on eligible ones exactly when the first min(k, n) ranks are. */
  lemma EligibleIff(nodes: seq<Node>, w: Workload, replicaCount: nat)
    requires DistinctNodes(nodes)
    ensures AllEligible(nodes, w, ReplicaNodes(nodes, w, replicaCount)) <==>
            forall r :: 0 <= r < Min(replicaCount, |ScoreAll(nodes, w)|) ==> Eligible(ScoreAll(nodes, w)[r].node, w)
  {
    var ranked := ScoreAll(nodes, w);
    forall n | n in nodes
      ensures n.id in ReplicaNodes(nodes, w, replicaCount) <==>
              exists r :: 0 <= r < Min(replicaCount, |ranked|) && ranked[r].node == n
    {
      PlacedRanks(nodes, w, replicaCount, n);
    }
    forall r | 0 <= r < |ranked| ensures ranked[r].node in nodes {
      RankedMember(nodes, w, ranked[r]);
    }
  }

  /** The placement of a manifest service; an absent target or target group is empty. */
  datatype Placement = Placement(target: string, targetGroup: string)

  function IsUp(): Node -> bool {
    (node: Node) => node.status == Online || node.status == Registering
  }

  function IsMember(members: set<string>): Node -> bool {
    (node: Node) => node.id in members
  }

  /** The first node a target names by id or host name. */
  function Pinned(nodes: seq<Node>, target: string): (r: seq<Node>)
    ensures |r| <= 1 && forall n :: n in r ==> n in nodes && (n.id == target || n.hostname == target)
    ensures r == [] ==> forall n :: n in nodes ==> n.id != target && n.hostname != target
  {
    if nodes == [] then []
    else if nodes[0].id == target || nodes[0].hostname == target then [nodes[0]]
    else Pinned(nodes[1..], target)
  }

  /** The nodes both callers of the scheduler hand it; `members` are the online members of the target group. */
  function ResolveEligibleNodes(placement: Placement, members: set<string>, nodes: seq<Node>): seq<Node> {
    var online := Filter(nodes, IsUp());
    if placement.target != "" then Pinned(online, placement.target)
    else if placement.targetGroup != "" then Filter(online, IsMember(members))
    else online
  }

  lemma {:induction false} FilterKeepsDistinct(nodes: seq<Node>, p: Node -> bool)
    requires DistinctNodes(nodes)
    ensures DistinctNodes(Filter(nodes, p))
  {
    if nodes != [] {
      FilterKeepsDistinct(nodes[1..], p);
      forall n | n in Filter(nodes[1..], p) ensures n.id != nodes[0].id {
        assert n in nodes[1..];
      }
    }
  }

  /** The handed nodes are up, different, and eligible exactly as far as builders are. */
  lemma ResolvedNodes(placement: Placement, members: set<string>, nodes: seq<Node>, w: Workload)
    requires DistinctNodes(nodes)
    ensures var handed := ResolveEligibleNodes(placement, members, nodes);
            && DistinctNodes(handed)
            && (forall n :: n in handed ==> n in nodes && (Eligible(n, w) <==> w.isBuild || !n.isBuilder))
  {
    var online := Filter(nodes, IsUp());
    FilterKeepsDistinct(nodes, IsUp());
    FilterKeepsDistinct(online, IsMember(members));
  }

  lemma {:induction false} PinnedIs(nodes: seq<Node>, target: string)
    ensures |Pinned(nodes, target)| <= 1
    ensures Pinned(nodes, target) != [] ==>
              exists i :: && 0 <= i < |nodes| && nodes[i] == Pinned(nodes, target)[0]
                          && (nodes[i].id == target || nodes[i].hostname == target)
                          && forall j :: 0 <= j < i ==> nodes[j].id != target && nodes[j].hostname != target
  {
    if nodes != [] && nodes[0].id != target && nodes[0].hostname != target {
      PinnedIs(nodes[1..], target);
      if Pinned(nodes[1..], target) != [] {
        var i :| && 0 <= i < |nodes[1..]| && nodes[1..][i] == Pinned(nodes[1..], target)[0]
                 && (nodes[1..][i].id == target || nodes[1..][i].hostname == target)
                 && forall j :: 0 <= j < i ==> nodes[1..][j].id != target && nodes[1..][j].hostname != target;
        assert nodes[i + 1] == Pinned(nodes, target)[0];
        assert forall j :: 0 < j < i + 1 ==> nodes[j] == nodes[1..][j - 1];
      }
    }
  }

  /**
   * Which nodes the callers hand over: without a target or a group all nodes that are up, for a group those of them
   * that are members, and for a target at most one of them, the first that bears it as id or host name.
   */
  lemma HandedIff(placement: Placement, members: set<string>, nodes: seq<Node>, n: Node)
    ensures var handed := ResolveEligibleNodes(placement, members, nodes);
            var up := n in nodes && n.status != Offline;
            && (placement.target == "" && placement.targetGroup == "" ==> (n in handed <==> up))
            && (placement.target == "" && placement.targetGroup != "" ==> (n in handed <==> up && n.id in members))
            && (placement.target != "" ==>
                  && |handed| <= 1
                  && (n in handed ==> up && (n.id == placement.target || n.hostname == placement.target))
                  && (handed == [] ==> (up ==> n.id != placement.target && n.hostname != placement.target)))
  {
    var online := Filter(nodes, IsUp());
    PinnedIs(online, placement.target);
    if placement.target != "" && n in Pinned(online, placement.target) {
      assert n == Pinned(online, placement.target)[0];
    }
  }

  /**
   * Builders. Of the nodes both callers hand over, all of k replicas land on eligible ones exactly when the workload is
   * a build or no builder is among the first min(k, n) ranks: offline nodes are filtered before, builders are not.
   */
  lemma NoBuilderIff(placement: Placement, members: set<string>, nodes: seq<Node>, w: Workload, replicaCount: nat)
    requires DistinctNodes(nodes)
    ensures var handed := ResolveEligibleNodes(placement, members, nodes);
            AllEligible(handed, w, ReplicaNodes(handed, w, replicaCount)) <==>
            || w.isBuild
            || forall r :: 0 <= r < Min(replicaCount, |ScoreAll(handed, w)|) ==> !ScoreAll(handed, w)[r].node.isBuilder
  {
    var handed := ResolveEligibleNodes(placement, members, nodes);
    ResolvedNodes(placement, members, nodes, w);
    EligibleIff(handed, w, replicaCount);
    forall r | 0 <= r < |ScoreAll(handed, w)|
      ensures Eligible(ScoreAll(handed, w)[r].node, w) <==> w.isBuild || !ScoreAll(handed, w)[r].node.isBuilder
    {
      RankedMember(handed, w, ScoreAll(handed, w)[r]);
    }
  }

  /** It fails on a single builder that is online and has room. */
  lemma BuilderTakesReplica(node: Node, w: Workload)
    requires node.status == Online && node.isBuilder && !w.isBuild && ScoreNode(node, w).Some?
    ensures ResolveEligibleNodes(Placement("", ""), {}, [node]) == [node]
    ensures ReplicaNodes([node], w, 1) == [node.id] && !AllEligible([node], w, ReplicaNodes([node], w, 1))
  {
    FilterAll([node], IsUp());
    ReplicasIgnoreStatus(node, w);
    assert node in [node] && node.id in [node.id];
  }
}
