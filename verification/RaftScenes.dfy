/**
 Runs of a Raft cluster, told by what is known of the state they lead to: how every node looks, which
 acknowledgements are on their way and what the leader believes. Members in the same situation play the
 same part, so that one run is told for clusters of every size.
 */
module RaftScenes {
  import opened Storage
  import opened RaftModel
  import opened RaftRuns
  import P = RaftPast
  import E = RaftElection

  /** What is known of a state: all faces, acknowledgements on their way, and what a leader believes of its peers. */
  datatype Scene = Scene(faces: map<NodeId, Face>, acks: set<Message>, leader: NodeId, next: map<NodeId, nat>,
                         known: set<NodeId>)

  ghost predicate Shows(k: Policy, s: System, v: Scene)
  {
    && Good(k, s) && Faced(s.nodes, v.faces) && OnTheWay(s.net, v.acks)
    && (v.leader in s.nodes ==> Books(k.c, v.leader, s.nodes[v.leader], v.next, v.known))
  }

  ghost predicate Faced(nodes: map<NodeId, Node>, faces: map<NodeId, Face>)
  {
    faces.Keys == nodes.Keys && forall id :: id in nodes ==> FaceOf(nodes[id]) == faces[id]
  }

  ghost predicate OnTheWay(net: multiset<Message>, acks: set<Message>)
  {
    forall m :: m in acks ==> m in net && m.AppendAck?
  }

  ghost predicate Books(c: Cluster, x: NodeId, n: Node, next: map<NodeId, nat>, known: set<NodeId>)
  {
    (forall r :: r in next ==> Lookup(n.nextIndex, r) == next[r]) && Known(c, x, n, known)
  }

  lemma FaceIs(nodes: map<NodeId, Node>, faces: map<NodeId, Face>, id: NodeId)
    requires Faced(nodes, faces) && id in faces
    ensures id in nodes && FaceOf(nodes[id]) == faces[id] && |nodes[id].log.entries| == |faces[id].terms|
    ensures faces[id].term == nodes[id].currentTerm && faces[id].role == nodes[id].role
    ensures faces[id].commit == nodes[id].log.commitIndex && Last(faces[id].terms) == P.LastTerm(nodes[id].log.entries)
  {
    TermsSize(nodes[id].log.entries);
  }

  lemma OneFace(nodes: map<NodeId, Node>, nodes': map<NodeId, Node>, faces: map<NodeId, Face>, id: NodeId)
    requires Faced(nodes, faces) && id in nodes && id in nodes' && nodes' == nodes[id := nodes'[id]]
    ensures Faced(nodes', faces[id := FaceOf(nodes'[id])])
  {
  }

  /** Some run leads to it. */
  ghost predicate Staged(k: Policy, v: Scene)
  {
    exists s :: Shows(k, s, v)
  }

  function Opening(ms: set<NodeId>): Scene
  {
    Scene(map id | id in ms :: Face(0, Follower, [], 0), {}, NOBODY, map[], {})
  }

  lemma Begin(k: Policy)
    requires |k.c.members| >= 3
    ensures Staged(k, Opening(k.c.members))
  {
    var s := Init(k.c);
    assert RunTo(k, [s], [], s);
    assert FaceOf(NEW_NODE).terms == [];
    assert Shows(k, s, Opening(k.c.members));
  }

  /** x leads the next term. */
  function Elected(v: Scene, x: NodeId): Scene
    requires x in v.faces
  {
    Scene(map id | id in v.faces ::
            v.faces[id].(term := v.faces[x].term + 1, role := if id == x then Leader else Follower),
          v.acks, x, map id | id in v.faces && id != x :: |v.faces[x].terms| + 1, {})
  }

  lemma Elects(k: Policy, v: Scene, x: NodeId, vs: set<NodeId>)
    requires Staged(k, v) && x in k.c.members && x in v.faces && v.faces[x].role != Leader
    requires forall id :: id in v.faces ==> v.faces[id].term == v.faces[x].term
    requires vs <= k.c.members - {x} && 1 + |vs| >= E.MajorityOf(k.c.members)
    requires forall w :: w in vs && w in v.faces ==> Ahead(v.faces[x].terms, v.faces[w].terms)
    ensures Staged(k, Elected(v, x))
  {
    hide Good, Ahead, Faced, OnTheWay, Books, FaceOf, NewLeader, KeepsAcks;
    var s :| Shows(k, s, v);
    Members(k, s);
    SameKeys(s.nodes, v.faces);
    forall id | id in k.c.members
      ensures FaceOf(s.nodes[id]) == v.faces[id] && s.nodes[id].currentTerm == v.faces[x].term
    {
      FaceIs(s.nodes, v.faces, id);
    }
    FaceIs(s.nodes, v.faces, x);
    var s' := Campaign(k, s, x, v.faces[x].term, vs);
    Members(k, s');
    AllFaced(s'.nodes, Elected(v, x).faces, s.nodes, v.faces);
    FaceIs(s'.nodes, Elected(v, x).faces, x);
    NewBooks(k.c, x, s'.nodes[x], Elected(v, x).next);
    StillOn(s.net, s'.net, v.acks);
    assert Shows(k, s', Elected(v, x));
  }

  lemma AllFaced(nodes': map<NodeId, Node>, faces': map<NodeId, Face>, nodes: map<NodeId, Node>,
                 faces: map<NodeId, Face>)
    requires Faced(nodes, faces) && faces'.Keys == faces.Keys && nodes'.Keys == nodes.Keys
    requires forall id :: id in nodes ==> FaceOf(nodes'[id]) == faces'[id]
    ensures Faced(nodes', faces')
  {
  }

  lemma NewBooks(c: Cluster, x: NodeId, n: Node, next: map<NodeId, nat>)
    requires NewLeader(c, x, n)
    requires forall r :: r in next ==> r in c.members && r != x && next[r] == |n.log.entries| + 1
    ensures Books(c, x, n, next, {})
  {
  }

  lemma StillOn(net: multiset<Message>, net': multiset<Message>, acks: set<Message>)
    requires OnTheWay(net, acks) && KeepsAcks(net, net')
    ensures OnTheWay(net', acks)
  {
  }

  /** The leader logs an entry. */
  function Entered(v: Scene): Scene
    requires v.leader in v.faces
  {
    var f := v.faces[v.leader];
    v.(faces := v.faces[v.leader := f.(terms := f.terms + [f.term])])
  }

  lemma Enters(k: Policy, v: Scene)
    requires Staged(k, v) && v.leader in v.faces && v.faces[v.leader].role == Leader && v.known == {}
    ensures Staged(k, Entered(v))
  {
    hide Good, Faced, OnTheWay, FaceOf, Known;
    var s :| Shows(k, s, v);
    Members(k, s);
    FaceIs(s.nodes, v.faces, v.leader);
    var s' := Enter(k, s, v.leader);
    OneFace(s.nodes, s'.nodes, v.faces, v.leader);
    assert Shows(k, s', Entered(v));
  }

  /** The log of the leader, copied to `ws` and acknowledged. */
  function Spread(v: Scene, ws: set<NodeId>): Scene
    requires v.leader in v.faces
  {
    var f := v.faces[v.leader];
    Scene(map id | id in v.faces ::
            if id in ws then Face(f.term, Follower, f.terms, v.faces[id].commit) else v.faces[id],
          v.acks + (set w | w in ws :: AppendAck(w, v.leader, f.term, true, |f.terms|)), v.leader, v.next - ws, v.known)
  }

  /** A leader that has logged something and committed nothing. */
  predicate Drafting(f: Face)
  {
    f.role == Leader && f.terms != [] && f.commit == 0
  }

  lemma SpreadsTo(k: Policy, v: Scene, w: NodeId)
    requires Staged(k, v) && v.leader in v.faces && Drafting(v.faces[v.leader]) && v.known == {}
    requires w in v.faces && w != v.leader && v.faces[w].term <= v.faces[v.leader].term
    requires w in v.next && 1 <= v.next[w] <= |v.faces[v.leader].terms| + 1
    requires Foreign(v.faces[v.leader].terms, v.faces[w].terms)
    ensures Staged(k, Spread(v, {w}))
  {
    hide Good, Faced, OnTheWay, FaceOf, Known, Foreign;
    var s :| Shows(k, s, v);
    Members(k, s);
    FaceIs(s.nodes, v.faces, v.leader);
    FaceIs(s.nodes, v.faces, w);
    var s' := CopyTo(k, s, v.leader, w, v.next[w]);
    Members(k, s');
    SameFace(s.nodes[v.leader], s'.nodes[v.leader]);
    SameKeys(s.nodes, v.faces);
    forall id | id in s.nodes
      ensures FaceOf(s'.nodes[id]) == Spread(v, {w}).faces[id]
    {
      FaceIs(s.nodes, v.faces, id);
    }
    AllFaced(s'.nodes, Spread(v, {w}).faces, s.nodes, v.faces);
    OneMoreOn(s.net, v.acks, Ack(w, v.leader, s.nodes[v.leader]));
    assert Spread(v, {w}).acks == v.acks + {Ack(w, v.leader, s.nodes[v.leader])};
    SameBooks(k.c, v.leader, s.nodes[v.leader], s'.nodes[v.leader], w, v.next);
    assert Shows(k, s', Spread(v, {w}));
  }

  lemma SameFace(n: Node, n': Node)
    requires n' == n.(nextIndex := n'.nextIndex)
    ensures FaceOf(n') == FaceOf(n)
  {
  }

  lemma SameKeys(nodes: map<NodeId, Node>, faces: map<NodeId, Face>)
    requires Faced(nodes, faces)
    ensures faces.Keys == nodes.Keys
  {
  }

  lemma OneMoreOn(net: multiset<Message>, acks: set<Message>, ack: Message)
    requires OnTheWay(net, acks) && ack.AppendAck?
    ensures OnTheWay(net + multiset{ack}, acks + {ack})
  {
  }

  lemma SameBooks(c: Cluster, x: NodeId, n: Node, n': Node, w: NodeId, next: map<NodeId, nat>)
    requires Books(c, x, n, next, {}) && n' == n.(nextIndex := n.nextIndex[w := 1])
    ensures Books(c, x, n', next - {w}, {})
  {
  }

  lemma {:induction false} Spreads(k: Policy, v: Scene, ws: set<NodeId>)
    requires Staged(k, v) && v.leader in v.faces && Drafting(v.faces[v.leader]) && v.known == {}
    requires ws <= v.faces.Keys - {v.leader} && ws <= v.next.Keys
    requires forall w :: w in ws ==> v.faces[w].term <= v.faces[v.leader].term
    requires forall w :: w in ws ==> 1 <= v.next[w] <= |v.faces[v.leader].terms| + 1
    requires forall w :: w in ws ==> Foreign(v.faces[v.leader].terms, v.faces[w].terms)
    ensures Staged(k, Spread(v, ws))
    decreases |ws|
  {
    hide Staged, Foreign;
    if ws == {} {
      assert Spread(v, ws) == v;
    } else {
      var w :| w in ws;
      SpreadsTo(k, v, w);
      Spreads(k, Spread(v, {w}), ws - {w});
      SpreadMore(v, w, ws);
    }
  }

  lemma SpreadMore(v: Scene, w: NodeId, ws: set<NodeId>)
    requires v.leader in v.faces && w in ws && v.leader !in ws
    ensures Spread(Spread(v, {w}), ws - {w}) == Spread(v, ws)
  {
    var a, b := Spread(Spread(v, {w}), ws - {w}), Spread(v, ws);
    assert a.faces == b.faces;
    assert a.acks == b.acks;
    assert a.next == b.next;
  }

  /** The leader has taken these acknowledgements. */
  function Reckon(v: Scene, ms: set<NodeId>, ws: set<NodeId>): Scene
    requires v.leader in v.faces
  {
    var f := v.faces[v.leader];
    v.(faces := v.faces[v.leader := f.(commit := Reckoned(ms, |f.terms|, v.known + ws))], known := v.known + ws,
      next := map[],
       acks := v.acks - (set m | m in v.acks && m.AppendAck? && m.src in ws))
  }

  lemma ReckonsOne(k: Policy, v: Scene, w: NodeId, term: nat)
    requires Staged(k, v) && v.leader in v.faces && v.faces[v.leader].role == Leader
    requires v.known <= k.c.members - {v.leader} && w in k.c.members - {v.leader} - v.known
    requires v.faces[v.leader].terms != [] && Last(v.faces[v.leader].terms) == v.faces[v.leader].term
    requires v.faces[v.leader].commit == Reckoned(k.c.members, |v.faces[v.leader].terms|, v.known)
    requires AppendAck(w, v.leader, term, true, |v.faces[v.leader].terms|) in v.acks
    requires term <= v.faces[v.leader].term && (term < v.faces[v.leader].term ==> k.trust.stale)
    ensures Staged(k, Reckon(v, k.c.members, {w}))
  {
    hide Good, Faced, OnTheWay, FaceOf, Known, Last, Reckoned;
    var s :| Shows(k, s, v);
    Members(k, s);
    FaceIs(s.nodes, v.faces, v.leader);
    var ack := AppendAck(w, v.leader, term, true, |v.faces[v.leader].terms|);
    StillOnOne(s.net, v.acks, ack);
    var s' := TakeOne(k, s, v.leader, w, term, v.known);
    OneFace(s.nodes, s'.nodes, v.faces, v.leader);
    FewerOn(s.net, v.acks, ack, Reckon(v, k.c.members, {w}).acks);
    assert Shows(k, s', Reckon(v, k.c.members, {w}));
  }

  lemma StillOnOne(net: multiset<Message>, acks: set<Message>, ack: Message)
    requires OnTheWay(net, acks) && ack in acks
    ensures ack in net
  {
  }

  lemma FewerOn(net: multiset<Message>, acks: set<Message>, ack: Message, acks': set<Message>)
    requires OnTheWay(net, acks) && acks' <= acks && ack !in acks'
    ensures OnTheWay(net - multiset{ack}, acks')
  {
  }

  lemma {:induction false} Reckons(k: Policy, v: Scene, ws: set<NodeId>, term: nat)
    requires Staged(k, v) && v.leader in v.faces && v.faces[v.leader].role == Leader
    requires v.known <= k.c.members - {v.leader} && ws <= k.c.members - {v.leader} - v.known
    requires v.faces[v.leader].terms != [] && Last(v.faces[v.leader].terms) == v.faces[v.leader].term
    requires v.faces[v.leader].commit == Reckoned(k.c.members, |v.faces[v.leader].terms|, v.known)
    requires forall w :: w in ws ==> AppendAck(w, v.leader, term, true, |v.faces[v.leader].terms|) in v.acks
    requires term <= v.faces[v.leader].term && (term < v.faces[v.leader].term ==> k.trust.stale) && ws != {}
    ensures Staged(k, Reckon(v, k.c.members, ws))
    decreases |ws|
  {
    hide Staged, Last;
    var w :| w in ws;
    ReckonsOne(k, v, w, term);
    if ws == {w} {
      assert ws == {w};
    } else {
      Reckons(k, Reckon(v, k.c.members, {w}), ws - {w}, term);
      ReckonMore(v, k.c.members, w, ws);
    }
  }

  lemma ReckonMore(v: Scene, ms: set<NodeId>, w: NodeId, ws: set<NodeId>)
    requires v.leader in v.faces && w in ws
    ensures Reckon(Reckon(v, ms, {w}), ms, ws - {w}) == Reckon(v, ms, ws)
  {
    var a, b := Reckon(Reckon(v, ms, {w}), ms, ws - {w}), Reckon(v, ms, ws);
    assert v.known + {w} + (ws - {w}) == v.known + ws;
    assert a.acks == b.acks;
  }

  /** Enough have the whole log of the leader, by the acknowledgements it took. */
  function Concluded(v: Scene): Scene
    requires v.leader in v.faces
  {
    var f := v.faces[v.leader];
    Scene(v.faces[v.leader := f.(commit := |f.terms|)], {}, NOBODY, map[], {})
  }

  lemma Concludes(k: Policy, v: Scene, ws: set<NodeId>, term: nat)
    requires Staged(k, v) && v.leader in v.faces && Drafting(v.faces[v.leader]) && v.known == {}
    requires Last(v.faces[v.leader].terms) == v.faces[v.leader].term
    requires |k.c.members| >= 3 && ws <= k.c.members - {v.leader} && 1 + |ws| >= E.MajorityOf(k.c.members)
    requires forall w :: w in ws ==> AppendAck(w, v.leader, term, true, |v.faces[v.leader].terms|) in v.acks
    requires term <= v.faces[v.leader].term && (term < v.faces[v.leader].term ==> k.trust.stale)
    ensures Staged(k, Concluded(v))
  {
    hide Good, Last, Faced, Books, FaceOf;
    Reckons(k, v, ws, term);
    assert {} + ws == ws;
    var s :| Shows(k, s, Reckon(v, k.c.members, ws));
    Members(k, s);
    assert Shows(k, s, Concluded(v));
  }

  /** Empty messages of a leader with an empty log, acknowledged by `ws` with what they have from others. */
  function Overstated(v: Scene, ws: set<NodeId>): Scene
    requires v.leader in v.faces && ws <= v.faces.Keys
  {
    v.(acks := v.acks + set w | w in ws :: AppendAck(w, v.leader, v.faces[v.leader].term, true, |v.faces[w].terms|))
  }

  lemma OverstatesOne(k: Policy, v: Scene, w: NodeId)
    requires Staged(k, v) && v.leader in v.faces && k.trust.over && v.known == {}
    requires v.faces[v.leader].role == Leader && v.faces[v.leader].terms == [] && v.faces[v.leader].commit == 0
    requires w in v.faces && w != v.leader && w in v.next && v.next[w] == 1
    requires v.faces[w].term == v.faces[v.leader].term && v.faces[w].role == Follower
    ensures Staged(k, Overstated(v, {w}))
  {
    hide Good, Faced, OnTheWay, FaceOf, Known;
    var s :| Shows(k, s, v);
    Members(k, s);
    FaceIs(s.nodes, v.faces, v.leader);
    FaceIs(s.nodes, v.faces, w);
    var s' := Overstating(k, s, v.leader, w);
    OneFace(s.nodes, s'.nodes, v.faces, w);
    assert v.faces[w := v.faces[w]] == v.faces;
    var ack := AppendAck(w, v.leader, v.faces[v.leader].term, true, |v.faces[w].terms|);
    OneMoreOn(s.net, v.acks, ack);
    assert Overstated(v, {w}).acks == v.acks + {ack};
    assert Shows(k, s', Overstated(v, {w}));
  }

  lemma {:induction false} Overstates(k: Policy, v: Scene, ws: set<NodeId>)
    requires Staged(k, v) && v.leader in v.faces && k.trust.over && v.known == {}
    requires v.faces[v.leader].role == Leader && v.faces[v.leader].terms == [] && v.faces[v.leader].commit == 0
    requires ws <= v.faces.Keys - {v.leader} && ws <= v.next.Keys
    requires forall w :: w in ws ==> v.next[w] == 1
    requires forall w :: w in ws ==> v.faces[w].term == v.faces[v.leader].term && v.faces[w].role == Follower
    ensures Staged(k, Overstated(v, ws))
    decreases |ws|
  {
    hide Staged;
    if ws == {} {
      assert Overstated(v, ws) == v;
    } else {
      var w :| w in ws;
      OverstatesOne(k, v, w);
      Overstates(k, Overstated(v, {w}), ws - {w});
      assert Overstated(Overstated(v, {w}), ws - {w}).acks == Overstated(v, ws).acks;
    }
  }

  // ---------------------------------------------------------------- scenes by parts

  /** Which part a member plays; those of one part are in the same situation. */
  type Cast = map<NodeId, nat>

  function Of(cast: Cast, parts: set<nat>): set<NodeId>
  {
    set id | id in cast && cast[id] in parts
  }

  /** x is the only one of its part. */
  ghost predicate Alone(cast: Cast, x: NodeId, a: nat)
  {
    x in cast && cast[x] == a && forall id :: id in cast && cast[id] == a ==> id == x
  }

  /** The faces of the parts, the acknowledgements on their way, the leader and from where it sends, if known. */
  datatype Play = Play(faces: seq<Face>, told: set<(nat, NodeId, nat, nat)>, leader: NodeId, next: nat)

  ghost predicate Plays(cast: Cast, v: Scene, p: Play)
  {
    && v.faces.Keys == cast.Keys && v.leader == p.leader && v.known == {}
    && (forall id :: id in cast ==> cast[id] < |p.faces| && v.faces[id] == p.faces[cast[id]])
    && (forall id, x, t, n :: id in cast && (cast[id], x, t, n) in p.told ==> AppendAck(id, x, t, true, n) in v.acks)
    && (p.next > 0 ==> forall r :: r in cast && r != p.leader ==> r in v.next && v.next[r] == p.next)
  }

  ghost predicate Played(k: Policy, cast: Cast, v: Scene, p: Play)
  {
    cast.Keys == k.c.members && Staged(k, v) && Plays(cast, v, p)
  }

  ghost predicate Performed(k: Policy, cast: Cast, p: Play)
  {
    exists v :: Played(k, cast, v, p)
  }

  function OpeningPlay(n: nat): Play
  {
    Play(seq(n, i => Face(0, Follower, [], 0)), {}, NOBODY, 0)
  }

  lemma BeginParts(k: Policy, cast: Cast, n: nat)
    requires cast.Keys == k.c.members && |k.c.members| >= 3 && forall id :: id in cast ==> cast[id] < n
    ensures Performed(k, cast, OpeningPlay(n))
  {
    hide Staged;
    Begin(k);
    assert Played(k, cast, Opening(k.c.members), OpeningPlay(n));
  }

  function ElectedPlay(p: Play, x: NodeId, a: nat): Play
    requires a < |p.faces|
  {
    var fs := p.faces;
    Play(seq(|fs|, i requires 0 <= i < |fs| =>
           fs[i].(term := fs[a].term + 1, role := if i == a then Leader else Follower)),
         p.told, x, |fs[a].terms| + 1)
  }

  lemma ElectPart(k: Policy, cast: Cast, p: Play, x: NodeId, a: nat, parts: set<nat>)
    requires a < |p.faces| && p.faces[a].role != Leader && Alone(cast, x, a)
    requires forall i :: 0 <= i < |p.faces| ==> p.faces[i].term == p.faces[a].term
    requires forall i :: i in parts && i < |p.faces| ==> Ahead(p.faces[a].terms, p.faces[i].terms)
    requires a !in parts && 1 + |Of(cast, parts)| >= E.MajorityOf(k.c.members) && Performed(k, cast, p)
    ensures Performed(k, cast, ElectedPlay(p, x, a))
  {
    hide Staged, Ahead, Elected, ElectedPlay;
    var v :| Played(k, cast, v, p);
    Elects(k, v, x, Of(cast, parts));
    ElectedPlays(cast, v, p, x, a);
    assert Played(k, cast, Elected(v, x), ElectedPlay(p, x, a));
  }

  lemma ElectedPlays(cast: Cast, v: Scene, p: Play, x: NodeId, a: nat)
    requires a < |p.faces| && Alone(cast, x, a) && Plays(cast, v, p)
    ensures Plays(cast, Elected(v, x), ElectedPlay(p, x, a))
  {
  }

  function EnteredPlay(p: Play, a: nat): Play
    requires a < |p.faces|
  {
    p.(faces := p.faces[a := p.faces[a].(terms := p.faces[a].terms + [p.faces[a].term])])
  }

  lemma EnterPart(k: Policy, cast: Cast, p: Play, a: nat)
    requires a < |p.faces| && p.faces[a].role == Leader && Alone(cast, p.leader, a) && Performed(k, cast, p)
    ensures Performed(k, cast, EnteredPlay(p, a))
  {
    hide Staged;
    var v :| Played(k, cast, v, p);
    Enters(k, v);
    assert Played(k, cast, Entered(v), EnteredPlay(p, a));
  }

  function SpreadPlay(p: Play, a: nat, parts: set<nat>): Play
    requires a < |p.faces|
  {
    var fs := p.faces;
    Play(seq(|fs|, i requires 0 <= i < |fs| =>
           if i in parts then Face(fs[a].term, Follower, fs[a].terms, fs[i].commit) else fs[i]),
         p.told + (set i | i in parts :: (i, p.leader, fs[a].term, |fs[a].terms|)), p.leader, 0)
  }

  lemma SpreadParts(k: Policy, cast: Cast, p: Play, a: nat, parts: set<nat>)
    requires a < |p.faces| && Drafting(p.faces[a]) && a !in parts && 1 <= p.next <= |p.faces[a].terms| + 1
    requires forall i :: i in parts && i < |p.faces| ==> p.faces[i].term <= p.faces[a].term
    requires forall i :: i in parts && i < |p.faces| ==> Foreign(p.faces[a].terms, p.faces[i].terms)
    requires Alone(cast, p.leader, a) && Performed(k, cast, p)
    ensures Performed(k, cast, SpreadPlay(p, a, parts))
  {
    hide Staged, Foreign, Spread, SpreadPlay;
    var v :| Played(k, cast, v, p);
    Spreads(k, v, Of(cast, parts));
    SpreadPlays(cast, v, p, a, parts);
    assert Played(k, cast, Spread(v, Of(cast, parts)), SpreadPlay(p, a, parts));
  }

  lemma SpreadPlays(cast: Cast, v: Scene, p: Play, a: nat, parts: set<nat>)
    requires a < |p.faces| && Alone(cast, p.leader, a) && Plays(cast, v, p)
    ensures Plays(cast, Spread(v, Of(cast, parts)), SpreadPlay(p, a, parts))
  {
  }

  function ConcludedPlay(p: Play, a: nat): Play
    requires a < |p.faces|
  {
    Play(p.faces[a := p.faces[a].(commit := |p.faces[a].terms|)], {}, NOBODY, 0)
  }

  lemma ConcludePart(k: Policy, cast: Cast, p: Play, a: nat, parts: set<nat>, term: nat)
    requires |k.c.members| >= 3 && a !in parts && 1 + |Of(cast, parts)| >= E.MajorityOf(k.c.members)
    requires a < |p.faces| && Drafting(p.faces[a]) && Last(p.faces[a].terms) == p.faces[a].term
    requires forall i :: i in parts ==> (i, p.leader, term, |p.faces[a].terms|) in p.told
    requires term <= p.faces[a].term && (term < p.faces[a].term ==> k.trust.stale)
    requires Alone(cast, p.leader, a) && Performed(k, cast, p)
    ensures Performed(k, cast, ConcludedPlay(p, a))
  {
    hide Staged, Last, Concluded, ConcludedPlay, Drafting;
    var v :| Played(k, cast, v, p);
    Concludes(k, v, Of(cast, parts), term);
    ConcludedPlays(cast, v, p, a);
    assert Played(k, cast, Concluded(v), ConcludedPlay(p, a));
  }

  lemma ConcludedPlays(cast: Cast, v: Scene, p: Play, a: nat)
    requires a < |p.faces| && Alone(cast, p.leader, a) && Plays(cast, v, p)
    ensures Plays(cast, Concluded(v), ConcludedPlay(p, a))
  {
  }

  function OverstatedPlay(p: Play, a: nat, parts: set<nat>, n: nat): Play
    requires a < |p.faces|
  {
    p.(told := p.told + set i | i in parts :: (i, p.leader, p.faces[a].term, n))
  }

  lemma OverstateParts(k: Policy, cast: Cast, p: Play, a: nat, parts: set<nat>, n: nat)
    requires a < |p.faces| && p.faces[a].role == Leader && p.faces[a].terms == [] && p.faces[a].commit == 0
    requires a !in parts && p.next == 1 && k.trust.over
    requires forall i :: i in parts && i < |p.faces| ==>
      p.faces[i].term == p.faces[a].term && p.faces[i].role == Follower && |p.faces[i].terms| == n
    requires Alone(cast, p.leader, a) && Performed(k, cast, p)
    ensures Performed(k, cast, OverstatedPlay(p, a, parts, n))
  {
    hide Staged;
    var v :| Played(k, cast, v, p);
    Overstates(k, v, Of(cast, parts));
    assert Played(k, cast, Overstated(v, Of(cast, parts)), OverstatedPlay(p, a, parts, n));
  }
}
