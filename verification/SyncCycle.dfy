/** One sync cycle of the runtime: which peers are asked, and what their answers do to the managed keys. */
module SyncCycle {
  import opened Prelude
  import opened Discovery

  /** What asking a peer for its key yields. */
  type Replies = PeerEndpoint -> Option<string>

  /** Configured peers by id, later entries over earlier ones. */
  function BootstrapEndpoints(values: seq<string>): map<string, PeerEndpoint> {
    if values == [] then map[]
    else
      var before := BootstrapEndpoints(values[..|values| - 1]);
      match ParseEndpoint(values[|values| - 1])
      case None => before
      case Some(e) => before[e.participantId := e]
  }

  /** Discovered peers override configured ones. */
  function Endpoints(bootstrap: seq<string>, peers: map<string, PeerRecord>): map<string, PeerEndpoint> {
    BootstrapEndpoints(bootstrap) + map id | id in peers :: PeerEndpoint(id, peers[id].address, peers[id].port)
  }

  /** The managed keys after a cycle: successful answers over old entries, the node itself left out. */
  function SyncResult(
    self: string, endpoints: map<string, PeerEndpoint>, replies: Replies, managed: map<string, string>)
    : map<string, string>
  {
    managed + map id | id in endpoints && id != self && replies(endpoints[id]).Some? :: replies(endpoints[id]).value
  }

  /** Records sit under their own ids, as in every state of the discovery engine. */
  predicate Keyed(peers: map<string, PeerRecord>) {
    forall id :: id in peers ==> peers[id].participantId == id
  }

  lemma {:induction false} EndpointsKeyed(values: seq<string>)
    ensures forall id :: id in BootstrapEndpoints(values) ==> BootstrapEndpoints(values)[id].participantId == id
  {
    if values != [] {
      hide ParseEndpoint;
      EndpointsKeyed(values[..|values| - 1]);
    }
  }

  /** The endpoints once the discovered peers in `done` have been added. */
  function WithPeers(configured: map<string, PeerEndpoint>, peers: map<string, PeerRecord>, done: set<string>)
    : map<string, PeerEndpoint>
  {
    configured + map id | id in peers && id in done :: PeerEndpoint(id, peers[id].address, peers[id].port)
  }

  lemma WithPeersStep(
    configured: map<string, PeerEndpoint>, peers: map<string, PeerRecord>, done: set<string>, id: string)
    requires id in peers
    ensures WithPeers(configured, peers, done + {id})
         == WithPeers(configured, peers, done)[id := PeerEndpoint(id, peers[id].address, peers[id].port)]
  {
  }

  lemma WithPeersEnds(configured: map<string, PeerEndpoint>, peers: map<string, PeerRecord>)
    ensures WithPeers(configured, peers, {}) == configured
    ensures WithPeers(configured, peers, peers.Keys)
         == configured + map id | id in peers :: PeerEndpoint(id, peers[id].address, peers[id].port)
  {
  }

  method CollectEndpoints(bootstrapPeers: seq<string>, peers: map<string, PeerRecord>)
    returns (endpoints: map<string, PeerEndpoint>)
    requires Keyed(peers)
    ensures endpoints == Endpoints(bootstrapPeers, peers)
    ensures forall id :: id in peers ==>
              id in endpoints && endpoints[id] == PeerEndpoint(id, peers[id].address, peers[id].port)
  {
    hide ParseEndpoint, WithPeers;
    endpoints := map[];
    for i := 0 to |bootstrapPeers|
      invariant endpoints == BootstrapEndpoints(bootstrapPeers[..i])
    {
      assert bootstrapPeers[..i + 1][..i] == bootstrapPeers[..i];
      var endpoint := ParseEndpoint(bootstrapPeers[i]);
      if endpoint.Some? {
        endpoints := endpoints[endpoint.value.participantId := endpoint.value];
      }
    }
    assert bootstrapPeers[..|bootstrapPeers|] == bootstrapPeers;
    endpoints := AddPeers(endpoints, peers);
    WithPeersEnds(BootstrapEndpoints(bootstrapPeers), peers);
  }

  /** The second half of collecting: a hash map hands out its values in any order. */
  method AddPeers(configured: map<string, PeerEndpoint>, peers: map<string, PeerRecord>)
    returns (endpoints: map<string, PeerEndpoint>)
    requires Keyed(peers)
    ensures endpoints == WithPeers(configured, peers, peers.Keys)
  {
    hide WithPeers;
    WithPeersEnds(configured, peers);
    endpoints := configured;
    var todo := peers.Keys;
    ghost var done: set<string> := {};
    while todo != {}
      invariant done + todo == peers.Keys && endpoints == WithPeers(configured, peers, done)
      decreases |todo|
    {
      var id :| id in todo;
      var peer := peers[id];
      WithPeersStep(configured, peers, done, id);
      endpoints := endpoints[peer.participantId := PeerEndpoint(peer.participantId, peer.address, peer.port)];
      todo := todo - {id};
      done := done + {id};
    }
    assert done == peers.Keys;
  }

  /** The endpoints asked so far. */
  function Asked(endpoints: map<string, PeerEndpoint>, done: set<string>): map<string, PeerEndpoint> {
    map id | id in endpoints && id in done :: endpoints[id]
  }

  lemma AskedStep(endpoints: map<string, PeerEndpoint>, done: set<string>, id: string)
    requires id in endpoints
    ensures Asked(endpoints, done + {id}) == Asked(endpoints, done)[id := endpoints[id]]
    ensures Asked(endpoints, {}) == map[] && Asked(endpoints, endpoints.Keys) == endpoints
  {
  }

  lemma AnswersStep(
    self: string, asked: map<string, PeerEndpoint>, replies: Replies, managed: map<string, string>, id: string,
    e: PeerEndpoint)
    requires id !in asked
    ensures var before := SyncResult(self, asked, replies, managed);
            SyncResult(self, asked[id := e], replies, managed)
            == if id != self && replies(e).Some? then before[id := replies(e).value] else before
  {
  }

  lemma AskedOnly(endpoints: map<string, PeerEndpoint>, done: set<string>, id: string)
    requires id !in done
    ensures id !in Asked(endpoints, done)
  {
  }

  lemma AnswersEnds(self: string, endpoints: map<string, PeerEndpoint>, replies: Replies, managed: map<string, string>)
    ensures SyncResult(self, Asked(endpoints, {}), replies, managed) == managed
    ensures Asked(endpoints, endpoints.Keys) == endpoints
  {
    assert Asked(endpoints, {}) == map[];
    assert SyncResult(self, map[], replies, managed) == managed;
  }

  lemma EndpointsOwnIds(bootstrap: seq<string>, peers: map<string, PeerRecord>)
    ensures var endpoints := Endpoints(bootstrap, peers);
            forall id :: id in endpoints ==> endpoints[id].participantId == id
  {
    hide BootstrapEndpoints;
    EndpointsKeyed(bootstrap);
  }

  /** The cycle, asking peers in whatever order the hash map has: the result does not depend on it. */
  method RunSyncCycle(
    self: string, bootstrapPeers: seq<string>, peers: map<string, PeerRecord>, replies: Replies,
    managedKeys: map<string, string>)
    returns (managed: map<string, string>)
    requires Keyed(peers)
    ensures managed == SyncResult(self, Endpoints(bootstrapPeers, peers), replies, managedKeys)
  {
    hide Endpoints, SyncResult, Asked;
    var endpoints := CollectEndpoints(bootstrapPeers, peers);
    EndpointsOwnIds(bootstrapPeers, peers);
    AnswersEnds(self, endpoints, replies, managedKeys);
    managed := managedKeys;
    var todo := endpoints.Keys;
    ghost var done: set<string> := {};
    while todo != {}
      invariant done + todo == endpoints.Keys && done !! todo
      invariant managed == SyncResult(self, Asked(endpoints, done), replies, managedKeys)
      decreases |todo|
    {
      var id :| id in todo;
      AskedStep(endpoints, done, id);
      AskedOnly(endpoints, done, id);
      AnswersStep(self, Asked(endpoints, done), replies, managedKeys, id, endpoints[id]);
      todo := todo - {id};
      done := done + {id};
      var endpoint := endpoints[id];
      if endpoint.participantId == self {
        continue;
      }
      var key := replies(endpoint);
      if key.Some? {
        managed := managed[endpoint.participantId := key.value];
      }
    }
    assert done == endpoints.Keys;
  }

  // ---------- laws over runs ----------

  datatype Cycle = Cycle(bootstrap: seq<string>, peers: map<string, PeerRecord>, replies: Replies)

  /** The managed keys after a run of cycles, from none. */
  function ManagedAfter(self: string, cycles: seq<Cycle>): map<string, string> {
    if cycles == [] then map[]
    else
      var c := cycles[|cycles| - 1];
      SyncResult(self, Endpoints(c.bootstrap, c.peers), c.replies, ManagedAfter(self, cycles[..|cycles| - 1]))
  }

  /** What peer `id` answers in a cycle; the node does not ask itself. */
  function Answer(self: string, c: Cycle, id: string): Option<string> {
    var endpoints := Endpoints(c.bootstrap, c.peers);
    if id != self && id in endpoints then c.replies(endpoints[id]) else None
  }

  /** The latest answer of peer `id` in a run. */
  function LatestAnswer(self: string, cycles: seq<Cycle>, id: string): Option<string> {
    if cycles == [] then None
    else
      var last := Answer(self, cycles[|cycles| - 1], id);
      if last.Some? then last else LatestAnswer(self, cycles[..|cycles| - 1], id)
  }

  function Find(m: map<string, string>, id: string): Option<string> {
    if id in m then Some(m[id]) else None
  }

  /** Over every run the managed map holds exactly the peers that ever answered, each with its latest answer. */
  lemma {:induction false} ManagedIsLatest(self: string, cycles: seq<Cycle>, id: string)
    ensures Find(ManagedAfter(self, cycles), id) == LatestAnswer(self, cycles, id)
  {
    if cycles != [] {
      hide Endpoints;
      ManagedIsLatest(self, cycles[..|cycles| - 1], id);
    }
  }

  lemma {:induction false} AnswersStay(self: string, cycles: seq<Cycle>, n: nat, id: string)
    requires n <= |cycles| && LatestAnswer(self, cycles[..n], id).Some?
    ensures LatestAnswer(self, cycles, id).Some?
    decreases |cycles|
  {
    hide Answer;
    if n == |cycles| {
      assert cycles[..n] == cycles;
    } else {
      assert cycles[..|cycles| - 1][..n] == cycles[..n];
      AnswersStay(self, cycles[..|cycles| - 1], n, id);
    }
  }

  lemma {:induction false} NoSelfAnswer(self: string, cycles: seq<Cycle>)
    ensures LatestAnswer(self, cycles, self).None?
  {
    if cycles != [] {
      NoSelfAnswer(self, cycles[..|cycles| - 1]);
    }
  }

  /** The managed id set only grows and never contains the node itself. */
  lemma ManagedGrows(self: string, cycles: seq<Cycle>, n: nat)
    requires n <= |cycles|
    ensures ManagedAfter(self, cycles[..n]).Keys <= ManagedAfter(self, cycles).Keys
    ensures self !in ManagedAfter(self, cycles)
  {
    hide ManagedAfter, LatestAnswer;
    ManagedIsLatest(self, cycles, self);
    NoSelfAnswer(self, cycles);
    forall id | id in ManagedAfter(self, cycles[..n])
      ensures id in ManagedAfter(self, cycles)
    {
      ManagedIsLatest(self, cycles[..n], id);
      ManagedIsLatest(self, cycles, id);
      AnswersStay(self, cycles, n, id);
    }
  }

  // ---------- which endpoint is asked ----------

  /** Value `i` is the last configured one that stands for `id`. */
  predicate LastConfigured(values: seq<string>, id: string, i: nat) {
    i < |values| && ParseEndpoint(values[i]).Some? && ParseEndpoint(values[i]).value.participantId == id
    && forall j :: i < j < |values| ==>
    !(ParseEndpoint(values[j]).Some? && ParseEndpoint(values[j]).value.participantId == id)
  }

  /** The last configured value for an id is the one that counts. */
  lemma {:induction false} ConfiguredAs(values: seq<string>, id: string, i: nat)
    requires LastConfigured(values, id, i)
    ensures id in BootstrapEndpoints(values) && Some(BootstrapEndpoints(values)[id]) == ParseEndpoint(values[i])
    decreases |values|
  {
    hide ParseEndpoint;
    var n := |values| - 1;
    if i < n {
      ConfiguredAs(values[..n], id, i);
    }
  }

  /** No id is configured without a value for it. */
  lemma {:induction false} ConfiguredFrom(values: seq<string>, id: string) returns (i: nat)
    requires id in BootstrapEndpoints(values)
    ensures LastConfigured(values, id, i)
  {
    hide ParseEndpoint;
    var n := |values| - 1;
    if ParseEndpoint(values[n]).Some? && ParseEndpoint(values[n]).value.participantId == id {
      i := n;
    } else {
      i := ConfiguredFrom(values[..n], id);
    }
  }

  /** An id stands for the discovered address when the peer was discovered, whatever is configured. */
  lemma DiscoveredFirst(bootstrap: seq<string>, peers: map<string, PeerRecord>, id: string)
    requires id in peers
    ensures var endpoints := Endpoints(bootstrap, peers);
            id in endpoints && endpoints[id] == PeerEndpoint(id, peers[id].address, peers[id].port)
  {
    hide BootstrapEndpoints;
  }

  /** Any other id stands for its last configured value, if it has one. */
  lemma ConfiguredNext(bootstrap: seq<string>, peers: map<string, PeerRecord>, id: string)
    requires id !in peers
    ensures id in Endpoints(bootstrap, peers) <==> exists i: nat :: LastConfigured(bootstrap, id, i)
    ensures forall i: nat :: LastConfigured(bootstrap, id, i) ==>
              id in Endpoints(bootstrap, peers) && Some(Endpoints(bootstrap, peers)[id]) == ParseEndpoint(bootstrap[i])
  {
    hide ParseEndpoint, LastConfigured, BootstrapEndpoints;
    if id in BootstrapEndpoints(bootstrap) {
      var i := ConfiguredFrom(bootstrap, id);
    }
    forall i: nat | LastConfigured(bootstrap, id, i)
      ensures i < |bootstrap| && id in BootstrapEndpoints(bootstrap)
      ensures Some(BootstrapEndpoints(bootstrap)[id]) == ParseEndpoint(bootstrap[i])
    {
      ConfiguredAs(bootstrap, id, i);
      LastInRange(bootstrap, id, i);
    }
  }

  lemma LastInRange(values: seq<string>, id: string, i: nat)
    requires LastConfigured(values, id, i)
    ensures i < |values|
  {
  }

  /**
   What a cycle does for one id: a discovered peer is asked at its discovered address, another one at
   its configured address; an accepted answer replaces the key, and anything else leaves it.
   */
  lemma CycleIs(
    self: string, bootstrap: seq<string>, peers: map<string, PeerRecord>, replies: Replies, managed: map<string,
    string>,
    id: string)
    ensures var after := SyncResult(self, Endpoints(bootstrap, peers), replies, managed);
            var reply := if id == self then None
                         else if id in peers then replies(PeerEndpoint(id, peers[id].address, peers[id].port))
                         else if id in Endpoints(bootstrap, map[]) then replies(Endpoints(bootstrap, map[])[id])
                         else None;
            if reply.Some? then id in after && after[id] == reply.value
            else (id in after <==> id in managed) && (id in managed ==> after[id] == managed[id])
  {
    hide BootstrapEndpoints;
  }
}
