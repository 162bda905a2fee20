/** One discovery attempt: probing the seeds and the peers they name, and remembering who answered. */
module Discovery {
  import opened Bytes
  import opened Collections
  import opened FollowerPool
  import opened Election

  type NodeId = string

  /** What the requests to one node give; `None` is a failed request. */
  datatype Answer = Answer(host: Option<Host>, health: Option<string>, leaderId: Option<string>, peers: Option<seq<NodeId>>)

  datatype Probed = Probed(id: NodeId, data: NodeData, peers: seq<NodeId>)

  datatype Failure = NoSeeds | NoLeader | NoNodeIds
  datatype Outcome = Found(topo: Topology, observed: seq<NodeId>) | Failed(why: Failure)

  /** A node counts when it resolves, is healthy and not "unavailable", and gives its info; peers are optional. */
  function ProbeNode(id: NodeId, a: Answer): Option<Probed> {
    if a.host.Some? && a.health.Some? && a.health.value != "unavailable" && a.leaderId.Some? then
      Some(Probed(id, NodeData(a.host.value, a.health.value, a.leaderId.value), if a.peers.Some? then a.peers.value else []))
    else None
  }

  /** Probes a batch; node `i` of it gets answer number `from + i`. */
  function ProbeNodes(ids: seq<NodeId>, answers: nat -> Answer, from: nat): seq<Probed> {
    if ids == [] then []
    else
      var n := |ids| - 1;
      ProbeNodes(ids[..n], answers, from) +
        match ProbeNode(ids[n], answers(from + n)) case None => [] case Some(p) => [p]
  }

  /** What a node that counts is recorded as, field by field. */
  predicate Describes(id: NodeId, a: Answer, p: Probed) {
    && p.id == id && a.host == Some(p.data.host)
    && a.health == Some(p.data.health) && p.data.health != "unavailable"
    && a.leaderId == Some(p.data.leaderId)
    && p.peers == match a.peers case None => [] case Some(peers) => peers
  }

  predicate Answers(answers: nat -> Answer, k: nat) {
    var a := answers(k);
    a.host.Some? && a.health.Some? && a.health != Some("unavailable") && a.leaderId.Some?
  }

  ghost function Answering(ids: seq<NodeId>, answers: nat -> Answer, from: nat): seq<nat> {
    if ids == [] then []
    else
      var n := |ids| - 1;
      Answering(ids[..n], answers, from) + if Answers(answers, from + n) then [n] else []
  }

  /** `at` lists the positions that answer, in order. */
  ghost predicate ListsAnswering(ids: seq<NodeId>, answers: nat -> Answer, from: nat, at: seq<nat>) {
    && (forall i :: 0 <= i < |at| ==> at[i] < |ids| && Answers(answers, from + at[i]))
    && (forall i, j :: 0 <= i < j < |at| ==> at[i] < at[j])
    && (forall k :: 0 <= k < |ids| && Answers(answers, from + k) ==> k in at)
  }

  lemma OneMoreAnswering(ids: seq<NodeId>, answers: nat -> Answer, from: nat, at: seq<nat>)
    requires ids != [] && ListsAnswering(ids[..|ids| - 1], answers, from, at)
    ensures ListsAnswering(ids, answers, from, at + if Answers(answers, from + |ids| - 1) then [|ids| - 1] else [])
  {}

  lemma {:induction false} AnsweringAreListed(ids: seq<NodeId>, answers: nat -> Answer, from: nat)
    ensures ListsAnswering(ids, answers, from, Answering(ids, answers, from))
  {
    if ids != [] {
      AnsweringAreListed(ids[..|ids| - 1], answers, from);
      OneMoreAnswering(ids, answers, from, Answering(ids[..|ids| - 1], answers, from));
    }
  }

  lemma {:induction false} ProbedAt(ids: seq<NodeId>, answers: nat -> Answer, from: nat, i: nat)
    ensures |ProbeNodes(ids, answers, from)| == |Answering(ids, answers, from)|
    ensures i < |Answering(ids, answers, from)| ==>
              var k := Answering(ids, answers, from)[i];
              k < |ids| && Describes(ids[k], answers(from + k), ProbeNodes(ids, answers, from)[i])
  {
    if ids != [] {
      ProbedAt(ids[..|ids| - 1], answers, from, i);
    }
  }

  /** Exactly the nodes of the batch that answer are in the result, in order, each as it described itself. */
  lemma ProbedAreThoseThatAnswer(ids: seq<NodeId>, answers: nat -> Answer, from: nat) returns (at: seq<nat>)
    ensures |ProbeNodes(ids, answers, from)| == |at| && forall i, j :: 0 <= i < j < |at| ==> at[i] < at[j]
    ensures forall i :: 0 <= i < |at| ==>
              at[i] < |ids| && Describes(ids[at[i]], answers(from + at[i]), ProbeNodes(ids, answers, from)[i])
    ensures forall k :: 0 <= k < |ids| && Answers(answers, from + k) ==> k in at
  {
    at := Answering(ids, answers, from);
    AnsweringAreListed(ids, answers, from);
    ProbedAt(ids, answers, from, 0);
    forall i | 0 <= i < |at|
      ensures at[i] < |ids| && Describes(ids[at[i]], answers(from + at[i]), ProbeNodes(ids, answers, from)[i])
    {
      ProbedAt(ids, answers, from, i);
    }
  }

  /** The node map after the results: a later result for the same host replaces an earlier one. */
  function Record(results: seq<Probed>): Nodes {
    if results == [] then map[]
    else
      var n := |results| - 1;
      Record(results[..n])[results[n].data.host := results[n].data]
  }

  /** The map has the hosts of the results, each with its last data. */
  lemma {:induction false} RecordHoldsTheLast(results: seq<Probed>, h: Host)
    ensures h in Record(results) ==> exists i :: 0 <= i < |results| && LastFor(results, h, i) &&
                                                 Record(results)[h] == results[i].data
    ensures h !in Record(results) ==> forall i :: 0 <= i < |results| ==> results[i].data.host != h
  {
    if results != [] {
      var n := |results| - 1;
      RecordHoldsTheLast(results[..n], h);
      if results[n].data.host == h {
        assert LastFor(results, h, n);
      } else if h in Record(results[..n]) {
        var i :| 0 <= i < n && LastFor(results[..n], h, i) && Record(results[..n])[h] == results[..n][i].data;
        assert LastFor(results, h, i);
      }
    }
  }

  ghost predicate LastFor(results: seq<Probed>, h: Host, i: nat) {
    i < |results| && results[i].data.host == h && forall j :: i < j < |results| ==> results[j].data.host != h
  }

  lemma {:induction false} RecordKeyed(results: seq<Probed>)
    ensures Keyed(Record(results))
  {
    if results != [] {
      RecordKeyed(results[..|results| - 1]);
    }
  }

  lemma RecordNext(results: seq<Probed>, p: Probed)
    ensures Record(results + [p]) == Record(results)[p.data.host := p.data]
    ensures IdsOf(results + [p]) == IdsOf(results) + [p.id]
  {
    assert (results + [p])[..|results|] == results;
  }

  function IdsOf(results: seq<Probed>): (ids: seq<NodeId>)
    ensures |ids| == |results| && forall i :: 0 <= i < |ids| ==> ids[i] == results[i].id
  {
    seq(|results|, i requires 0 <= i < |results| => results[i].id)
  }

  /** Peers named by the results that are not seeds. */
  ghost function NewPeers(seeds: seq<NodeId>, results: seq<Probed>): set<NodeId> {
    set p, id | p in results && id in p.peers && id !in seeds :: id
  }

  /** The hash-map orders of one attempt. */
  datatype Orders = Orders(peers: seq<NodeId>, hosts: seq<Host>, ids: seq<string>)

  ghost function Results(seeds: seq<NodeId>, answers: nat -> Answer, peers: seq<NodeId>): seq<Probed> {
    ProbeNodes(seeds, answers, 0) + ProbeNodes(peers, answers, |seeds|)
  }

  ghost predicate Plausible(seeds: seq<NodeId>, answers: nat -> Answer, o: Orders) {
    var nodes := Record(Results(seeds, answers, o.peers));
    && Arranges(o.peers, NewPeers(seeds, ProbeNodes(seeds, answers, 0)))
    && Arranges(o.hosts, nodes.Keys) && Arranges(o.ids, Reported(nodes))
  }

  /** The outcome of an attempt, given the hash-map orders. */
  ghost function Attempted(seeds: seq<NodeId>, answers: nat -> Answer, o: Orders): Outcome {
    if seeds == [] then Failed(NoSeeds)
    else
      var results := Results(seeds, answers, o.peers);
      match Elect(Record(results), o.hosts, o.ids)
      case None => Failed(NoLeader)
      case Some(topo) => Found(topo, IdsOf(results))
  }

  // ---- The attempt as code ----

  /** Phase 1: records the seeds that answered and collects peers that are not seeds. */
  method RecordSeeds(seeds: seq<NodeId>, results: seq<Probed>)
    returns (nodes: Nodes, peers: set<NodeId>, observed: seq<NodeId>)
    ensures nodes == Record(results) && observed == IdsOf(results) && peers == NewPeers(seeds, results)
  {
    nodes, peers, observed := map[], {}, [];
    for i := 0 to |results|
      invariant nodes == Record(results[..i]) && observed == IdsOf(results[..i])
      invariant peers == NewPeers(seeds, results[..i])
    {
      var p := results[i];
      assert results[..i + 1] == results[..i] + [p];
      RecordNext(results[..i], p);
      observed := observed + [p.id];
      nodes := nodes[p.data.host := p.data];
      ghost var before := peers;
      for j := 0 to |p.peers|
        invariant forall id :: id in peers <==> id in before || (id in p.peers[..j] && id !in seeds)
      {
        if p.peers[j] !in seeds {
          peers := peers + {p.peers[j]};
        }
      }
    }
    assert results[..|results|] == results;
  }

  /** Phase 2: records the new peers that answered. */
  method RecordPeers(nodes: Nodes, observed: seq<NodeId>, ghost first: seq<Probed>, results: seq<Probed>)
    returns (nodes': Nodes, observed': seq<NodeId>)
    requires nodes == Record(first) && observed == IdsOf(first)
    ensures nodes' == Record(first + results) && observed' == IdsOf(first + results)
  {
    nodes', observed' := nodes, observed;
    assert first + results[..0] == first;
    for i := 0 to |results|
      invariant nodes' == Record(first + results[..i]) && observed' == IdsOf(first + results[..i])
    {
      var p := results[i];
      assert first + results[..i + 1] == first + results[..i] + [p];
      RecordNext(first + results[..i], p);
      observed' := observed' + [p.id];
      nodes' := nodes'[p.data.host := p.data];
    }
    assert results[..|results|] == results;
  }

  /** The outcome is that of an attempt for some hash-map orders. */
  ghost predicate Outcomes(seeds: seq<NodeId>, answers: nat -> Answer, r: Outcome, o: Orders) {
    (seeds != [] ==> Plausible(seeds, answers, o)) && r == Attempted(seeds, answers, o)
  }

  /** Nothing answered, so nobody is elected. */
  lemma NobodyAnswered(seeds: seq<NodeId>, answers: nat -> Answer, peers: seq<NodeId>)
    requires seeds != [] && Record(Results(seeds, answers, peers)) == map[]
    requires Arranges(peers, NewPeers(seeds, ProbeNodes(seeds, answers, 0)))
    ensures Outcomes(seeds, answers, Failed(NoLeader), Orders(peers, [], []))
  {
    assert Reported(map[]) == {};
  }

  method DiscoverFromSeeds(seeds: seq<NodeId>, answers: nat -> Answer) returns (r: Outcome)
    ensures exists o :: Outcomes(seeds, answers, r, o)
  {
    if seeds == [] {
      r := Failed(NoSeeds);
      assert Outcomes(seeds, answers, r, Orders([], [], []));
      return;
    }
    var first := ProbeNodes(seeds, answers, 0);
    var nodes, peers, observed := RecordSeeds(seeds, first);
    var peerIds: seq<NodeId> := [];
    if peers != {} {
      peerIds := Iterate(peers);
      nodes, observed := RecordPeers(nodes, observed, first, ProbeNodes(peerIds, answers, |seeds|));
    }
    assert peerIds == [] ==> Results(seeds, answers, peerIds) == first;
    assert nodes == Record(Results(seeds, answers, peerIds));
    if nodes == map[] {
      NobodyAnswered(seeds, answers, peerIds);
      return Failed(NoLeader);
    }
    RecordKeyed(Results(seeds, answers, peerIds));
    var topo := HoldElection(nodes);
    r := if topo.None? then Failed(NoLeader) else Found(topo.value, observed);
    ghost var hosts, ids :| Possible(nodes, topo, hosts, ids);
    assert Outcomes(seeds, answers, r, Orders(peerIds, hosts, ids));
  }

  // ---- What an attempt guarantees ----

  lemma {:induction false} ProbedIds(ids: seq<NodeId>, answers: nat -> Answer, from: nat)
    ensures forall p :: p in ProbeNodes(ids, answers, from) ==> p.id in ids
  {
    if ids != [] {
      ProbedIds(ids[..|ids| - 1], answers, from);
    }
  }

  lemma ObservedIds(seeds: seq<NodeId>, answers: nat -> Answer, peers: seq<NodeId>, id: NodeId)
    requires id in IdsOf(Results(seeds, answers, peers))
    ensures id in seeds || id in peers
  {
    ProbedIds(seeds, answers, 0);
    ProbedIds(peers, answers, |seeds|);
    var results := Results(seeds, answers, peers);
    var i :| 0 <= i < |results| && results[i].id == id;
    assert results[i] in ProbeNodes(seeds, answers, 0) || results[i] in ProbeNodes(peers, answers, |seeds|);
  }

  lemma SoundNeedsNodes(nodes: Nodes, hosts: seq<Host>, ids: seq<string>)
    requires Arranges(hosts, nodes.Keys) && Arranges(ids, Reported(nodes)) && Elect(nodes, hosts, ids).Some?
    ensures nodes != map[] && exists id :: Sound(nodes, Elect(nodes, hosts, ids).value, id)
  {
    ElectionIsSound(nodes, hosts, ids);
  }

  /** The topology is sound for the nodes that answered, and the ids to remember are those that answered. */
  lemma AttemptIsSound(seeds: seq<NodeId>, answers: nat -> Answer, o: Orders)
    requires Plausible(seeds, answers, o) && Attempted(seeds, answers, o).Found?
    ensures var r := Attempted(seeds, answers, o);
            && (exists id :: Sound(Record(Results(seeds, answers, o.peers)), r.topo, id))
            && r.observed != []
            && forall id :: id in r.observed ==> id in seeds || id in NewPeers(seeds, ProbeNodes(seeds, answers, 0))
  {
    var results := Results(seeds, answers, o.peers);
    SoundNeedsNodes(Record(results), o.hosts, o.ids);
    assert results != [];
    forall id | id in IdsOf(results) ensures id in seeds || id in NewPeers(seeds, ProbeNodes(seeds, answers, 0)) {
      ObservedIds(seeds, answers, o.peers, id);
    }
  }

  /** A node that answers has its place in the result. */
  lemma AnswererIsProbed(ids: seq<NodeId>, answers: nat -> Answer, from: nat, k: nat) returns (i: nat)
    requires k < |ids| && Answers(answers, from + k)
    ensures i < |ProbeNodes(ids, answers, from)| && Describes(ids[k], answers(from + k), ProbeNodes(ids, answers, from)[i])
  {
    var at := ProbedAreThoseThatAnswer(ids, answers, from);
    assert k in at;
    i :| 0 <= i < |at| && at[i] == k;
  }

  lemma AnswererIsObserved(ids: seq<NodeId>, answers: nat -> Answer, from: nat, k: nat)
    requires k < |ids| && Answers(answers, from + k)
    ensures ids[k] in IdsOf(ProbeNodes(ids, answers, from))
  {
    var i := AnswererIsProbed(ids, answers, from, k);
    assert IdsOf(ProbeNodes(ids, answers, from))[i] == ids[k];
  }

  lemma ObservedOnce(ids: seq<NodeId>, answers: nat -> Answer, from: nat)
    requires Distinct(ids)
    ensures Distinct(IdsOf(ProbeNodes(ids, answers, from)))
  {
    var at := ProbedAreThoseThatAnswer(ids, answers, from);
    var observed := IdsOf(ProbeNodes(ids, answers, from));
    forall i, j | 0 <= i < j < |observed| ensures observed[i] != observed[j] {
      assert observed[i] == ids[at[i]] && observed[j] == ids[at[j]];
    }
  }

  /** Seed number `k` answers and names the peer, which is no seed. */
  ghost predicate NamesPeer(seeds: seq<NodeId>, answers: nat -> Answer, k: nat, id: NodeId) {
    && k < |seeds| && Answers(answers, k) && answers(k).peers.Some?
    && id in answers(k).peers.value && id !in seeds
  }

  lemma NamedIsProbed(seeds: seq<NodeId>, answers: nat -> Answer, id: NodeId, k: nat)
    requires NamesPeer(seeds, answers, k, id)
    ensures id in NewPeers(seeds, ProbeNodes(seeds, answers, 0))
  {
    var i := AnswererIsProbed(seeds, answers, 0, k);
    var p := ProbeNodes(seeds, answers, 0)[i];
    assert p in ProbeNodes(seeds, answers, 0) && id in p.peers;
  }

  lemma ProbedIsNamed(seeds: seq<NodeId>, answers: nat -> Answer, id: NodeId) returns (k: nat)
    requires id in NewPeers(seeds, ProbeNodes(seeds, answers, 0))
    ensures NamesPeer(seeds, answers, k, id)
  {
    var results := ProbeNodes(seeds, answers, 0);
    var p :| p in results && id in p.peers && id !in seeds;
    var i :| 0 <= i < |results| && results[i] == p;
    ProbedAt(seeds, answers, 0, i);
    AnsweringAreListed(seeds, answers, 0);
    k := Answering(seeds, answers, 0)[i];
    assert Answers(answers, 0 + k);
  }

  lemma ObservedApart(seeds: seq<NodeId>, answers: nat -> Answer, peers: seq<NodeId>)
    requires Distinct(seeds) && Distinct(peers) && forall id :: id in peers ==> id !in seeds
    ensures Distinct(IdsOf(Results(seeds, answers, peers)))
  {
    var first, second := ProbeNodes(seeds, answers, 0), ProbeNodes(peers, answers, |seeds|);
    ProbedIds(seeds, answers, 0);
    ProbedIds(peers, answers, |seeds|);
    ObservedOnce(seeds, answers, 0);
    ObservedOnce(peers, answers, |seeds|);
    assert IdsOf(first + second) == IdsOf(first) + IdsOf(second);
    forall i, j | 0 <= i < |first| && 0 <= j < |second| ensures IdsOf(first)[i] != IdsOf(second)[j] {
      assert first[i] in first && second[j] in second;
    }
  }

  /** Everyone who answers is observed: the seeds, and the peers that an answering seed names. */
  lemma EveryoneIsObserved(seeds: seq<NodeId>, answers: nat -> Answer, o: Orders, k: nat)
    requires Plausible(seeds, answers, o)
    ensures k < |seeds| && Answers(answers, k) ==> seeds[k] in IdsOf(Results(seeds, answers, o.peers))
    ensures k < |o.peers| && Answers(answers, |seeds| + k) ==> o.peers[k] in IdsOf(Results(seeds, answers, o.peers))
  {
    var first, second := ProbeNodes(seeds, answers, 0), ProbeNodes(o.peers, answers, |seeds|);
    assert IdsOf(first + second) == IdsOf(first) + IdsOf(second);
    if k < |seeds| && Answers(answers, k) {
      AnswererIsObserved(seeds, answers, 0, k);
    }
    if k < |o.peers| && Answers(answers, |seeds| + k) {
      AnswererIsObserved(o.peers, answers, |seeds|, k);
    }
  }

  /** The peers probed are exactly those that an answering seed names, the seeds excepted; nobody is observed twice. */
  lemma PeersAreProbedOnce(seeds: seq<NodeId>, answers: nat -> Answer, o: Orders)
    requires Plausible(seeds, answers, o)
    ensures forall id :: id in o.peers <==> exists k: nat :: NamesPeer(seeds, answers, k, id)
    ensures Distinct(seeds) ==> Distinct(IdsOf(Results(seeds, answers, o.peers)))
  {
    forall id ensures id in o.peers <==> exists k: nat :: NamesPeer(seeds, answers, k, id) {
      if id in o.peers {
        var k := ProbedIsNamed(seeds, answers, id);
      }
      if k: nat :| NamesPeer(seeds, answers, k, id) {
        NamedIsProbed(seeds, answers, id, k);
      }
    }
    if Distinct(seeds) { ObservedApart(seeds, answers, o.peers); }
  }

  /** A success from these seeds, with a topology that is sound for the nodes that answered. */
  ghost predicate Succeeds(seeds: seq<NodeId>, answers: nat -> Answer, r: Outcome) {
    exists o :: SucceedsWith(seeds, answers, r, o)
  }

  ghost predicate SucceedsWith(seeds: seq<NodeId>, answers: nat -> Answer, r: Outcome, o: Orders) {
    && Plausible(seeds, answers, o) && r.Found? && r == Attempted(seeds, answers, o)
    && exists id :: Sound(Record(Results(seeds, answers, o.peers)), r.topo, id)
  }

  /** Why the fallback failed: no ids could be fetched, there were none, or an attempt from them failed. */
  ghost predicate FallbackFailed(rzid: Option<seq<NodeId>>, later: nat -> Answer, r: Outcome) {
    match rzid
    case None => r == Failed(NoNodeIds)
    case Some(ids) => if ids == [] then r == Failed(NoSeeds) else exists o :: Outcomes(ids, later, r, o)
  }

  // ---- Remembering who answered ----

  class TopologyDiscovery {
    var known: seq<NodeId>

    constructor (seeds: seq<NodeId>)
      ensures known == seeds
    {
      known := seeds;
    }

    /**
     * Tries the remembered ids and then, when that fails, the ids `rzid` gives (`None` when they cannot be fetched).
     * A success is that of an attempt and replaces the remembered ids by those that answered, at least one; a failure
     * leaves them alone.
     */
    method Discover(answers: nat -> Answer, rzid: Option<seq<NodeId>>, later: nat -> Answer)
      returns (r: Outcome, fellBack: bool)
      modifies this
      ensures r.Found? ==> if fellBack then rzid.Some? && Succeeds(rzid.value, later, r) else Succeeds(old(known), answers, r)
      ensures r.Found? ==> known == r.observed && known != []
      ensures r.Failed? ==> known == old(known) && fellBack && FallbackFailed(rzid, later, r)
      ensures fellBack && old(known) != [] ==>
                exists o :: Plausible(old(known), answers, o) && Attempted(old(known), answers, o).Failed?
    {
      fellBack := false;
      if known != [] {
        r := DiscoverFromSeeds(known, answers);
        ghost var o :| Outcomes(known, answers, r, o);
        if r.Found? {
          AttemptIsSound(known, answers, o);
          assert SucceedsWith(known, answers, r, o);
          if r.observed != [] {
            known := r.observed;
          }
          return;
        }
      }
      fellBack := true;
      if rzid.None? { return Failed(NoNodeIds), true; }
      if rzid.value == [] { return Failed(NoSeeds), true; }
      r := DiscoverFromSeeds(rzid.value, later);
      ghost var o :| Outcomes(rzid.value, later, r, o);
      if r.Found? {
        AttemptIsSound(rzid.value, later, o);
        assert SucceedsWith(rzid.value, later, r, o);
        if r.observed != [] {
          known := r.observed;
        }
      }
    }
  }
}
