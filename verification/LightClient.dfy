/** The light client of the snapshot tools: block headers drive a joint-consensus state machine, and a
    change of consensus takes effect only with proof that it is irreversible. Hashes are injective, so a
    hash is represented by what it is computed from. */
module LightClient {
  import opened Leb128

  type Account = nat
  type BlockNum = nat
  type Services = nat

  datatype Claim = Claim(service: Account, data: nat)
  datatype Producer = Producer(name: Account, auth: Claim)
  datatype Algorithm = Cft | Bft
  datatype Consensus = Consensus(algorithm: Algorithm, producers: seq<Producer>, services: nat)
  datatype Next = Next(consensus: Consensus, blockNum: BlockNum)
  datatype Joint = Joint(current: Consensus, next: Option<Next>)
  datatype Hash = Zero | Sha(state: Joint)

  datatype Header = Header(blockNum: BlockNum, producer: Account, commitNum: BlockNum,
                           newConsensus: Option<Consensus>, authCode: Option<seq<nat>>, consensusState: Hash)
  datatype ProducerConfirm = ProducerConfirm(producer: Account, signature: nat)
  datatype BlockConfirm = BlockConfirm(blockNum: BlockNum, commits: seq<ProducerConfirm>,
                                       nextCommits: Option<seq<ProducerConfirm>>)
  datatype Aux = Missing | Garbled | Confirm(value: BlockConfirm)
  datatype SignedBlock = SignedBlock(header: Header, signature: nat, aux: Aux)

  /** What a signature is over. */
  datatype Message = BlockSignature(header: Header) | Commit(blockId: Header, producer: Account, signer: Claim)

  /** Signature services, and the replacement of the services by those of another consensus. */
  datatype Env = Env(verify: (Services, Message, Claim, nat) -> bool,
                     update: (Services, Consensus, Consensus, seq<nat>) -> Option<Services>)

  datatype Row = Row(start: BlockNum, commit: BlockNum, end: BlockNum)

  datatype State = State(joint: Joint, hash: Hash, pendingCode: seq<nat>, pending: seq<Header>,
                         head: BlockNum, services: Services)

  function StrongThreshold(c: Consensus): nat {
    if c.algorithm.Bft? then |c.producers| * 2 / 3 + 1 else |c.producers| / 2 + 1
  }

  /** The key of an active producer. An empty list of producers accepts anyone, without a signature. */
  function ProducerKey(producers: seq<Producer>, name: Account): Option<Claim> {
    if producers == [] then Some(Claim(0, 0)) else KeyIn(producers, name)
  }

  function KeyIn(producers: seq<Producer>, name: Account): (r: Option<Claim>)
    ensures r.Some? ==> exists p :: p in producers && p.name == name && p.auth == r.value
  {
    if producers == [] then None
    else if producers[0].name == name then Some(producers[0].auth)
    else KeyIn(producers[1..], name)
  }

  predicate Verified(env: Env, services: Services, message: Message, claim: Claim, signature: nat) {
    claim.service == 0 || env.verify(services, message, claim, signature)
  }

  predicate ConfirmOk(env: Env, services: Services, producers: seq<Producer>, id: Header, c: ProducerConfirm) {
    var key := ProducerKey(producers, c.producer);
    key.Some? && Verified(env, services, Commit(id, c.producer, key.value), key.value, c.signature)
  }

  /** Confirmations in increasing order of producer, each one valid. */
  predicate ConfirmsOk(env: Env, services: Services, producers: seq<Producer>, id: Header,
                       commits: seq<ProducerConfirm>, prev: Account)
  {
    commits != [] ==>
      && prev < commits[0].producer
      && ConfirmOk(env, services, producers, id, commits[0])
      && ConfirmsOk(env, services, producers, id, commits[1..], commits[0].producer)
  }

  predicate Quorum(env: Env, services: Services, c: Consensus, id: Header, commits: seq<ProducerConfirm>) {
    |commits| >= StrongThreshold(c) && ConfirmsOk(env, services, c.producers, id, commits, 0)
  }

  function BlockId(pending: seq<Header>, num: BlockNum): (r: Option<Header>)
    ensures r.Some? ==> r.value in pending && r.value.blockNum == num
  {
    if pending == [] then None
    else if pending[0].blockNum == num then Some(pending[0])
    else BlockId(pending[1..], num)
  }

  /** Proof that the change of `v` is irreversible: the commit block and the services afterwards. */
  function Irreversible(env: Env, v: State, b: SignedBlock): (r: Option<(BlockNum, Services)>)
    requires v.joint.next.Some?
  {
    if v.joint.current.algorithm.Cft? then IrreversibleCft(env, v, b) else IrreversibleBft(env, v, b)
  }

  function Updated(env: Env, v: State): Option<Services>
    requires v.joint.next.Some?
  {
    env.update(v.services, v.joint.current, v.joint.next.value.consensus, v.pendingCode)
  }

  function IrreversibleCft(env: Env, v: State, b: SignedBlock): (r: Option<(BlockNum, Services)>)
    requires v.joint.next.Some?
  {
    var key := ProducerKey(v.joint.current.producers, b.header.producer);
    var services := Updated(env, v);
    if key.None? || services.None? then None
    else if !Verified(env, v.services, BlockSignature(b.header), key.value, b.signature) then None
    else Some((b.header.commitNum, services.value))
  }

  function IrreversibleBft(env: Env, v: State, b: SignedBlock): (r: Option<(BlockNum, Services)>)
    requires v.joint.next.Some?
  {
    if !b.aux.Confirm? then None
    else
      var confirms := b.aux.value;
      var id, services := BlockId(v.pending, confirms.blockNum), Updated(env, v);
      if id.None? || services.None? || confirms.nextCommits.None? then None
      else if !Quorum(env, v.services, v.joint.current, id.value, confirms.commits) then None
      else if !Quorum(env, services.value, v.joint.next.value.consensus, id.value, confirms.nextCommits.value) then None
      else Some((confirms.blockNum, services.value))
  }

  /** A header that announces a new consensus starts a change. */
  function Started(v: State, h: Header): (r: Option<State>) {
    if h.newConsensus.None? then Some(v)
    else if v.joint.next.Some? then None
    else
      var joint := Joint(v.joint.current, Some(Next(h.newConsensus.value, h.blockNum)));
      Some(v.(joint := joint, hash := Sha(joint),
              pendingCode := if h.authCode.Some? then h.authCode.value else v.pendingCode))
  }

  predicate Ends(v: State, h: Header) { v.joint.next.Some? && h.commitNum >= v.joint.next.value.blockNum }

  datatype Accepted = Accepted(state: State, row: Option<Row>)

  function Finished(v: State, services: Services): State
    requires v.joint.next.Some?
  {
    var joint := Joint(v.joint.next.value.consensus, None);
    v.(joint := joint, hash := Sha(joint), pendingCode := [], pending := [], services := services)
  }

  /** `push`: None when a check fails. */
  function Step(env: Env, v: State, b: SignedBlock): (r: Option<Accepted>) {
    var h := b.header;
    var started := Started(v, h);
    if h.blockNum <= v.head || started.None? || started.value.hash != h.consensusState then None
    else
      var v := started.value;
      var v := if v.joint.next.Some? then v.(pending := v.pending + [h]) else v;
      if !Ends(v, h) then Some(Accepted(v, None))
      else
        var proof := Irreversible(env, v, b);
        if proof.None? then None
        else
          Some(Accepted(Finished(v, proof.value.1), Some(Row(v.joint.next.value.blockNum, proof.value.0, h.blockNum))))
  }

  // ----- quorums

  /** The producers that confirmed. */
  function Signers(commits: seq<ProducerConfirm>): set<Account> {
    set c | c in commits :: c.producer
  }

  function Names(producers: seq<Producer>): set<Account> {
    set p | p in producers :: p.name
  }

  lemma {:induction false} NamesBound(producers: seq<Producer>)
    ensures |Names(producers)| <= |producers|
  {
    if producers != [] {
      NamesBound(producers[1..]);
      assert Names(producers) == {producers[0].name} + Names(producers[1..]);
    }
  }

  /** Increasing order makes the signers distinct, and every signer is a producer. */
  lemma {:induction false} ConfirmsDistinct(env: Env, services: Services, producers: seq<Producer>, id: Header,
                                            commits: seq<ProducerConfirm>, prev: Account)
    requires ConfirmsOk(env, services, producers, id, commits, prev) && producers != []
    ensures |Signers(commits)| == |commits| && Signers(commits) <= Names(producers)
    ensures forall a :: a in Signers(commits) ==> a > prev
  {
    if commits == [] {
      assert Signers(commits) == {};
    } else {
      var c := commits[0];
      ConfirmsDistinct(env, services, producers, id, commits[1..], c.producer);
      assert commits == [c] + commits[1..];
      assert Signers(commits) == {c.producer} + Signers(commits[1..]);
    }
  }

  /** A strong quorum of distinct producers. */
  lemma QuorumSigners(env: Env, services: Services, c: Consensus, id: Header, commits: seq<ProducerConfirm>)
    requires Quorum(env, services, c, id, commits) && c.producers != []
    ensures |Signers(commits)| >= StrongThreshold(c) && Signers(commits) <= Names(c.producers)
  {
    ConfirmsDistinct(env, services, c.producers, id, commits, 0);
  }

  lemma {:induction false} Subset(a: set<Account>, b: set<Account>)
    requires a <= b
    ensures |a| <= |b|
  {
    if a != {} {
      var x :| x in a;
      Subset(a - {x}, b - {x});
    }
  }

  lemma Overlap(a: set<Account>, b: set<Account>, all: set<Account>)
    requires a <= all && b <= all
    ensures |a * b| >= |a| + |b| - |all|
  {
    Subset(a + b, all);
    assert |a + b| == |a| + |b| - |a * b|;
  }

  /** Both the old and the new producers confirmed the block `id`, each by a strong quorum. */
  predicate Confirmed(env: Env, id: Header, c: BlockConfirm, from: Consensus, services: Services, to: Consensus,
                      services': Services) {
    && c.nextCommits.Some?
    && Quorum(env, services, from, id, c.commits)
    && Quorum(env, services', to, id, c.nextCommits.value)
    && (from.producers != [] ==>
          |Signers(c.commits)| >= StrongThreshold(from) && Signers(c.commits) <= Names(from.producers))
    && (to.producers != [] ==>
          |Signers(c.nextCommits.value)| >= StrongThreshold(to) && Signers(c.nextCommits.value) <= Names(to.producers))
  }

  /** An accepted change under BFT has such a confirmation of one block that was pending. */
  lemma AcceptedBft(env: Env, v: State, b: SignedBlock)
    requires Step(env, v, b).Some? && Step(env, v, b).value.row.Some? && v.joint.current.algorithm.Bft?
    ensures b.aux.Confirm? && b.aux.value.blockNum == Step(env, v, b).value.row.value.commit
    ensures Step(env, v, b).value.state.joint.next.None?
    ensures var v' := Step(env, v, b).value.state;
            exists id :: id in v.pending + [b.header] && id.blockNum == b.aux.value.blockNum
              && Confirmed(env, id, b.aux.value, v.joint.current, v.services, v'.joint.current, v'.services)
  {
    var v1 := Started(v, b.header).value;
    var v' := Step(env, v, b).value.state;
    var c := b.aux.value;
    var id := BlockId(v1.pending + [b.header], c.blockNum).value;
    if v.joint.current.producers != [] { QuorumSigners(env, v.services, v.joint.current, id, c.commits); }
    if v'.joint.current.producers != [] { QuorumSigners(env, v'.services, v'.joint.current, id, c.nextCommits.value); }
    assert Confirmed(env, id, c, v.joint.current, v.services, v'.joint.current, v'.services);
  }

  /** Two changes accepted under the same BFT producers share more than a third of them as signers. */
  lemma ChangesIntersect(env: Env, v: State, b: SignedBlock, w: State, b': SignedBlock)
    requires Step(env, v, b).Some? && Step(env, v, b).value.row.Some?
    requires Step(env, w, b').Some? && Step(env, w, b').value.row.Some?
    requires v.joint.current.algorithm.Bft? && w.joint.current == v.joint.current && v.joint.current.producers != []
    ensures b.aux.Confirm? && b'.aux.Confirm?
    ensures |Signers(b.aux.value.commits) * Signers(b'.aux.value.commits)| >= |v.joint.current.producers| / 3 + 1
  {
    AcceptedBft(env, v, b);
    AcceptedBft(env, w, b');
    NamesBound(v.joint.current.producers);
    Overlap(Signers(b.aux.value.commits), Signers(b'.aux.value.commits), Names(v.joint.current.producers));
  }

  // ----- the validator as it is updated in place

  method FindKey(producers: seq<Producer>, name: Account) returns (key: Option<Claim>)
    ensures key == ProducerKey(producers, name)
  {
    if producers == [] { return Some(Claim(0, 0)); }
    for i := 0 to |producers|
      invariant KeyIn(producers, name) == KeyIn(producers[i..], name)
    {
      if producers[i].name == name { return Some(producers[i].auth); }
      assert producers[i..][1..] == producers[i + 1..];
    }
    assert producers[|producers|..] == [];
    key := None;
  }

  method FindBlockId(pending: seq<Header>, num: BlockNum) returns (id: Option<Header>)
    ensures id == BlockId(pending, num)
  {
    for i := 0 to |pending|
      invariant BlockId(pending, num) == BlockId(pending[i..], num)
    {
      if pending[i].blockNum == num { return Some(pending[i]); }
      assert pending[i..][1..] == pending[i + 1..];
    }
    assert pending[|pending|..] == [];
    id := None;
  }

  method VerifyCommits(env: Env, services: Services, c: Consensus, id: Header, commits: seq<ProducerConfirm>)
    returns (ok: bool)
    ensures ok == Quorum(env, services, c, id, commits)
  {
    if |commits| < StrongThreshold(c) { return false; }
    var prev: Account := 0;
    for i := 0 to |commits|
      invariant ConfirmsOk(env, services, c.producers, id, commits, 0) ==
                ConfirmsOk(env, services, c.producers, id, commits[i..], prev)
    {
      var msg := commits[i];
      assert commits[i..][1..] == commits[i + 1..] && commits[i..][0] == msg;
      var key := FindKey(c.producers, msg.producer);
      if prev >= msg.producer || key.None? { return false; }
      if !Verified(env, services, Commit(id, msg.producer, key.value), key.value, msg.signature) { return false; }
      prev := msg.producer;
    }
    assert commits[|commits|..] == [];
    ok := true;
  }

  class Validator {
    var joint: Joint
    var hash: Hash
    var pendingCode: seq<nat>
    var pending: seq<Header>
    const head: BlockNum
    var services: Services

    ghost function View(): State
      reads this
    {
      State(joint, hash, pendingCode, pending, head, services)
    }

    /** From the status row of a database: the known head, and no pending blocks. The services are loaded from it
        for the next consensus if a change is under way, and for the current one otherwise. */
    constructor (joint: Joint, head: BlockNum, load: Consensus -> Services)
      ensures joint.next.Some? ==> View() == State(joint, Sha(joint), [], [], head, load(joint.next.value.consensus))
      ensures joint.next.None? ==> View() == State(joint, Sha(joint), [], [], head, load(joint.current))
    {
      this.joint, hash, pendingCode, pending := joint, Sha(joint), [], [];
      var consensus := if joint.next.Some? then joint.next.value.consensus else joint.current;
      this.head, services := head, load(consensus);
    }

    /** Without a database: no consensus is known, and no hash matches until a block announces one. */
    constructor Fresh(current: Consensus, services: Services)
      ensures View() == State(Joint(current, None), Zero, [], [], 0, services)
    {
      joint, hash, pendingCode, pending := Joint(current, None), Zero, [], [];
      head, this.services := 0, services;
    }

    /** Replaces the services by those of the next consensus. */
    method UpdateVerifyState(env: Env) returns (ok: bool)
      requires joint.next.Some?
      modifies `services, `pendingCode
      ensures ok == Updated(env, old(View())).Some?
      ensures ok ==> View() == old(View()).(services := Updated(env, old(View())).value, pendingCode := [])
      ensures !ok ==> View() == old(View())
    {
      var updated := env.update(services, joint.current, joint.next.value.consensus, pendingCode);
      if updated.None? { return false; }
      services, pendingCode := updated.value, [];
      ok := true;
    }

    method VerifyCft(env: Env, b: SignedBlock) returns (commit: Option<BlockNum>)
      requires joint.next.Some?
      modifies `services, `pendingCode
      ensures var r := IrreversibleCft(env, old(View()), b);
              && (commit.Some? <==> r.Some?)
              && (r.Some? ==>
                    commit.value == r.value.0
                    && View() == old(View()).(services := r.value.1, pendingCode := []))
    {
      var key := FindKey(joint.current.producers, b.header.producer);
      if key.None? { return None; }
      if !Verified(env, services, BlockSignature(b.header), key.value, b.signature) { return None; }
      var ok := UpdateVerifyState(env);
      commit := if ok then Some(b.header.commitNum) else None;
    }

    method VerifyBft(env: Env, b: SignedBlock) returns (commit: Option<BlockNum>)
      requires joint.next.Some?
      modifies `services, `pendingCode
      ensures var r := IrreversibleBft(env, old(View()), b);
              && (commit.Some? <==> r.Some?)
              && (r.Some? ==>
                    commit.value == r.value.0
                    && View() == old(View()).(services := r.value.1, pendingCode := []))
    {
      if !b.aux.Confirm? { return None; }
      var confirms := b.aux.value;
      var id := FindBlockId(pending, confirms.blockNum);
      if id.None? { return None; }
      var ok := VerifyCommits(env, services, joint.current, id.value, confirms.commits);
      if !ok { return None; }
      ok := UpdateVerifyState(env);
      if !ok || confirms.nextCommits.None? { return None; }
      ok := VerifyCommits(env, services, joint.next.value.consensus, id.value, confirms.nextCommits.value);
      commit := if ok then Some(confirms.blockNum) else None;
    }

    /** Accepts a block exactly when every check passes; the new state and the row are those of `Step`. */
    method Push(env: Env, b: SignedBlock) returns (r: Option<Option<Row>>)
      modifies `joint, `hash, `pendingCode, `pending, `services
      ensures r.Some? <==> Step(env, old(View()), b).Some?
      ensures r.Some? ==> Step(env, old(View()), b).value == Accepted(View(), r.value)
    {
      var h := b.header;
      if h.blockNum <= head { return None; }
      if h.newConsensus.Some? {
        if joint.next.Some? { return None; }
        joint := Joint(joint.current, Some(Next(h.newConsensus.value, h.blockNum)));
        hash := Sha(joint);
        if h.authCode.Some? { pendingCode := h.authCode.value; }
      }
      if hash != h.consensusState { return None; }
      if joint.next.Some? { pending := pending + [h]; }
      if joint.next.Some? && h.commitNum >= joint.next.value.blockNum {
        var start := joint.next.value.blockNum;
        var commit;
        if joint.current.algorithm.Cft? { commit := VerifyCft(env, b); } else { commit := VerifyBft(env, b); }
        if commit.None? { return None; }
        joint := Joint(joint.next.value.consensus, None);
        hash := Sha(joint);
        pending := [];
        return Some(Some(Row(start, commit.value, h.blockNum)));
      }
      r := Some(None);
    }
  }
}
