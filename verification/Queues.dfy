/**
 The requests of the scheduler, one generation each, and the queues they wait and run in.
 */
module Queues {
  import opened Lists
  import opened Tokens
  import opened PromptData
  import Prefill

  type ReqId = nat

  datatype Status = Pending | Alive

  /** `kv` is what the KV cache holds of the request. */
  datatype Req = Req(prompt: seq<Data>, status: Status, seqId: SeqId, inputs: seq<Data>, committed: seq<Token>,
                     kv: seq<Unit>)

  type Requests = map<ReqId, Req>

  // ---------------------------------------------------------------- queues

  /** Pending: waiting only. Alive with inputs left: both queues. Alive without: running only. */
  predicate Placed(q: Req, waits: bool, runs: bool) {
    && (q.inputs != [] || q.status == Alive ==> q.prompt != [])
    && if q.status == Pending then waits && !runs else runs && (waits <==> q.inputs != [])
  }

  /** Everything that has been said so far. */
  function Said(q: Req): seq<Unit> {
    Flatten(q.prompt) + Units(TokenData(q.committed))
  }

  /** What is computed and what is left to compute make up the prompt and the committed tokens, but the newest. */
  predicate Conserved(q: Req) {
    && (q.status == Pending ==> q.kv == [])
    && if q.status == Pending || q.inputs != [] then q.kv + Flatten(q.inputs) == Said(q)
       else q.committed != [] && q.kv == Said(q.(committed := q.committed[..|q.committed| - 1]))
  }

  /** A queued request is known; a known request is placed according to its state and has lost nothing. */
  predicate Queued(reqs: Requests, waiting: seq<ReqId>, running: seq<ReqId>, r: ReqId) {
    && (r in waiting || r in running ==> r in reqs)
    && (r in reqs ==> Placed(reqs[r], r in waiting, r in running) && Conserved(reqs[r]))
  }

  ghost predicate QueuesOk(reqs: Requests, waiting: seq<ReqId>, running: seq<ReqId>) {
    && NoDup(waiting) && NoDup(running)
    && forall r {:trigger Queued(reqs, waiting, running, r)} :: Queued(reqs, waiting, running, r)
  }

  /** A request takes part in decoding when its prompt has been processed completely. */
  predicate Ready(reqs: Requests, r: ReqId) {
    r in reqs && reqs[r].status == Alive && reqs[r].inputs == []
  }

  function ReadyOnes(reqs: Requests, running: seq<ReqId>): seq<ReqId> {
    if running == [] then []
    else (if Ready(reqs, running[0]) then [running[0]] else []) + ReadyOnes(reqs, running[1..])
  }

  lemma {:induction false} ReadySnoc(reqs: Requests, running: seq<ReqId>, r: ReqId)
    ensures ReadyOnes(reqs, running + [r]) == ReadyOnes(reqs, running) + if Ready(reqs, r) then [r] else []
  {
    if running == [] {
      assert running + [r] == [r] && [r][1..] == [];
    } else {
      assert (running + [r])[1..] == running[1..] + [r];
      ReadySnoc(reqs, running[1..], r);
    }
  }

  /** The list depends only on the readiness of the running requests. */
  lemma {:induction false} ReadySame(reqs: Requests, reqs': Requests, running: seq<ReqId>)
    requires forall r :: r in running ==> (Ready(reqs, r) <==> Ready(reqs', r))
    ensures ReadyOnes(reqs, running) == ReadyOnes(reqs', running)
  {
    if running != [] {
      var first := running[0];
      assert first in running;
      assert forall r :: r in running[1..] ==> r in running;
      ReadySame(reqs, reqs', running[1..]);
    }
  }

  /** The running requests are the alive ones. */
  lemma RunningIsAlive(reqs: Requests, waiting: seq<ReqId>, running: seq<ReqId>, r: ReqId)
    requires QueuesOk(reqs, waiting, running)
    ensures r in running <==> r in reqs && reqs[r].status == Alive
    ensures r in running ==> reqs[r].prompt != []
    ensures r in waiting ==> r in reqs
  {
    assert Queued(reqs, waiting, running, r);
  }

  lemma Waits(reqs: Requests, waiting: seq<ReqId>, running: seq<ReqId>, r: ReqId)
    requires QueuesOk(reqs, waiting, running) && r in waiting
    ensures r in reqs && Conserved(reqs[r]) && (reqs[r].inputs != [] ==> reqs[r].prompt != [])
  {
    assert Queued(reqs, waiting, running, r);
  }

  /** The last running request has lost its place: the list of those ready to decode loses it too, if it was there. */
  lemma LastReady(reqs: Requests, running: seq<ReqId>, reqs': Requests)
    requires running != [] && NoDup(running)
    requires var r := running[|running| - 1]; r in reqs && r in reqs' && reqs' == reqs[r := reqs'[r]]
    ensures var n := |running| - 1; var list := ReadyOnes(reqs, running);
            ReadyOnes(reqs', running[..n])
            == if list != [] && running[n] == list[|list| - 1] then list[..|list| - 1] else list
  {
    var n := |running| - 1;
    var r := running[n];
    assert running == running[..n] + [r];
    ReadySnoc(reqs, running[..n], r);
    assert r !in running[..n];
    ReadySame(reqs, reqs', running[..n]);
    ReadyMembers(reqs, running[..n]);
    var list := ReadyOnes(reqs, running[..n]);
    assert list != [] ==> list[|list| - 1] in list;
  }

  lemma Enqueue(reqs: Requests, waiting: seq<ReqId>, running: seq<ReqId>, r: ReqId, q: Req)
    requires QueuesOk(reqs, waiting, running) && r !in reqs && q.status == Pending && Conserved(q)
    requires q.inputs != [] ==> q.prompt != []
    ensures r !in running && QueuesOk(reqs[r := q], waiting + [r], running)
  {
    assert Queued(reqs, waiting, running, r);
    var reqs', waiting' := reqs[r := q], waiting + [r];
    forall x ensures Queued(reqs', waiting', running, x) {
      assert Queued(reqs, waiting, running, x);
    }
  }

  lemma Drop(reqs: Requests, waiting: seq<ReqId>, running: seq<ReqId>, r: ReqId)
    requires QueuesOk(reqs, waiting, running)
    ensures QueuesOk(reqs - {r}, Without(waiting, r), Without(running, r))
  {
    WithoutMembers(waiting, r);
    WithoutMembers(running, r);
    forall x ensures Queued(reqs - {r}, Without(waiting, r), Without(running, r), x) {
      assert Queued(reqs, waiting, running, x);
    }
  }

  /** A request starts or goes on with its prompt; when nothing is left it leaves the waiting queue. */
  lemma Advance(reqs: Requests, waiting: seq<ReqId>, running: seq<ReqId>, r: ReqId, q: Req)
    requires QueuesOk(reqs, waiting, running) && r in waiting
    requires q.status == Alive && q.prompt != [] && Conserved(q)
    ensures r in reqs
    ensures QueuesOk(reqs[r := q], if q.inputs == [] then Without(waiting, r) else waiting,
                     if reqs[r].status == Pending then running + [r] else running)
  {
    assert Queued(reqs, waiting, running, r);
    WithoutMembers(waiting, r);
    var reqs' := reqs[r := q];
    var waiting' := if q.inputs == [] then Without(waiting, r) else waiting;
    var running' := if reqs[r].status == Pending then running + [r] else running;
    forall x ensures Queued(reqs', waiting', running', x) {
      assert Queued(reqs, waiting, running, x);
    }
  }

  /** The last running request goes back to the front of the waiting queue, unless it is there already. */
  lemma SendBack(reqs: Requests, waiting: seq<ReqId>, running: seq<ReqId>, q: Req)
    requires QueuesOk(reqs, waiting, running) && running != []
    requires q.status == Pending && q.prompt != [] && Conserved(q)
    ensures var r := running[|running| - 1];
            r in reqs && QueuesOk(reqs[r := q], if reqs[r].inputs == [] then [r] + waiting else waiting,
                                  running[..|running| - 1])
  {
    var r := running[|running| - 1];
    assert r in running && Queued(reqs, waiting, running, r);
    var reqs', running' := reqs[r := q], running[..|running| - 1];
    var waiting' := if reqs[r].inputs == [] then [r] + waiting else waiting;
    forall x ensures Queued(reqs', waiting', running', x) {
      assert Queued(reqs, waiting, running, x);
      assert x in running' <==> x in running && x != r;
    }
  }

  /** A request that stays in its queues. */
  lemma Stay(reqs: Requests, waiting: seq<ReqId>, running: seq<ReqId>, r: ReqId, q: Req)
    requires QueuesOk(reqs, waiting, running) && Ready(reqs, r)
    requires q.status == Alive && q.inputs == [] && q.prompt == reqs[r].prompt && Conserved(q)
    ensures QueuesOk(reqs[r := q], waiting, running)
  {
    assert Queued(reqs, waiting, running, r);
    var reqs' := reqs[r := q];
    forall x ensures Queued(reqs', waiting, running, x) {
      assert Queued(reqs, waiting, running, x);
    }
  }

  // ---------------------------------------------------------------- preempted inputs

  /** What a preempted request has to process again: its prompt, then the tokens it had committed. */
  function Requeued(prompt: seq<Data>, committed: seq<Token>): seq<Data>
    requires prompt != []
  {
    var n := |prompt| - 1;
    if prompt[n].TokenData? then prompt[..n] + [TokenData(prompt[n].ids + committed)]
    else if committed != [] then prompt + [TokenData(committed)]
    else prompt
  }

  /** A request that has been preempted starts again, under some id. */
  predicate PreemptedFrom(q: Req, q': Req) {
    && q.prompt != []
    && q' == q.(status := Pending, seqId := q'.seqId, inputs := Requeued(q.prompt, q.committed), kv := [])
  }

  /** What became of a request while the running queue shrank from `was` to `running`. */
  predicate Fate(before: Requests, was: seq<ReqId>, reqs: Requests, running: seq<ReqId>, r: ReqId) {
    && (r in before <==> r in reqs)
    && (r in before ==> if r in was && r !in running then PreemptedFrom(before[r], reqs[r]) else reqs[r] == before[r])
  }

  /** Requests are preempted from the end of the running queue, and nothing else happens to any request. */
  ghost predicate Shrunk(before: Requests, was: seq<ReqId>, reqs: Requests, running: seq<ReqId>) {
    running <= was && forall r {:trigger Fate(before, was, reqs, running, r)} :: Fate(before, was, reqs, running, r)
  }

  /** The last running request is preempted. */
  predicate ShorterBy(reqs: Requests, running: seq<ReqId>, reqs': Requests, running': seq<ReqId>) {
    && running != [] && running' == running[..|running| - 1]
    && var r := running[|running| - 1];
    && r in reqs && r in reqs' && reqs' == reqs[r := reqs'[r]] && PreemptedFrom(reqs[r], reqs'[r])
  }

  lemma ShrinkMore(before: Requests, was: seq<ReqId>, reqs: Requests, running: seq<ReqId>,
                   reqs': Requests, running': seq<ReqId>)
    requires Shrunk(before, was, reqs, running) && NoDup(was) && ShorterBy(reqs, running, reqs', running')
    ensures Shrunk(before, was, reqs', running')
  {
    var last := running[|running| - 1];
    assert last in was;
    forall r ensures Fate(before, was, reqs', running', r) {
      assert Fate(before, was, reqs, running, r);
      assert r in running' <==> r in running && r != last;
    }
  }

  lemma RequeuedFlat(prompt: seq<Data>, committed: seq<Token>)
    requires prompt != []
    ensures Flatten(Requeued(prompt, committed)) == Flatten(prompt) + Units(TokenData(committed))
    ensures |Requeued(prompt, committed)|
         == |prompt| + if prompt[|prompt| - 1].TokenData? || committed == [] then 0 else 1
  {
    var n := |prompt| - 1;
    if prompt[n].TokenData? {
      PrefixStep(prompt, n);
      assert prompt[..n + 1] == prompt;
      FlattenConcat(prompt[..n], [TokenData(prompt[n].ids + committed)]);
      FlattenOne(TokenData(prompt[n].ids + committed));
      Prefill.UnitsConcat(prompt[n].ids, committed);
      ConcatAssoc(Flatten(prompt[..n]), Units(prompt[n]), Units(TokenData(committed)));
    } else if committed != [] {
      FlattenConcat(prompt, [TokenData(committed)]);
      FlattenOne(TokenData(committed));
    }
  }

  // ---------------------------------------------------------------- prefill and decode of one request

  /** Of the inputs, `offset` positions were known and at most `most` more are computed; none is lost. */
  predicate Prefilled(q: Req, q': Req, offset: nat, most: nat) {
    && q'.kv + Flatten(q'.inputs) == q.kv + Flatten(q.inputs)
    && |q.kv| + offset <= |q'.kv| <= |q.kv| + offset + most
    && (AllTokens(q.inputs) ==> |q'.kv| - |q.kv| - offset == if most < TotalLength(q.inputs) - offset then most
                                                            else TotalLength(q.inputs) - offset)
  }

  /**
   One prefill of a request: `offset` positions come from the prefix cache, at most `most` more
   are computed, and a token is sampled when nothing is left.
   */
  method Process(q: Req, offset: nat, most: nat, sample: Token) returns (q': Req)
    requires Conserved(q) && most > 0 && TotalLength(q.inputs) > 0
    requires offset > 0 ==> q.status == Pending && AllTokens(q.inputs) && offset < TotalLength(q.inputs)
    ensures q'.status == Alive && q'.prompt == q.prompt && q'.seqId == q.seqId && Conserved(q')
    ensures q'.committed == q.committed + if q'.inputs == [] then [sample] else []
    ensures Prefilled(q, q', offset, most)
  {
    var started := StartFrom(q, offset);
    var rest, kv := Compute(started.inputs, Least(most, TotalLength(started.inputs)), started.kv);
    q' := q.(status := Alive, inputs := rest, kv := kv,
             committed := if rest == [] then q.committed + [sample] else q.committed);
    if rest == [] {
      assert q'.committed[..|q.committed|] == q.committed;
    }
  }

  /** The part of a prompt that the prefix cache holds need not be computed. */
  method StartFrom(q: Req, offset: nat) returns (q': Req)
    requires offset > 0 ==> AllTokens(q.inputs) && offset < TotalLength(q.inputs)
    ensures q'.kv + Flatten(q'.inputs) == q.kv + Flatten(q.inputs) && |q'.kv| == |q.kv| + offset
    ensures TotalLength(q'.inputs) == TotalLength(q.inputs) - offset && (AllTokens(q.inputs) ==> AllTokens(q'.inputs))
  {
    q' := q;
    if offset > 0 {
      var rest := Prefill.PopPrefillInputData(q.inputs, offset);
      q' := q.(inputs := rest, kv := q.kv + Flatten(q.inputs)[..offset]);
      ConcatAssoc(q.kv, Flatten(q.inputs)[..offset], Flatten(rest));
    }
  }

  /** Computes a chunk of the inputs and appends it to the KV cache. */
  method Compute(inputs: seq<Data>, most: nat, kv: seq<Unit>) returns (rest: seq<Data>, kv': seq<Unit>)
    requires 0 < most <= TotalLength(inputs)
    ensures kv' + Flatten(rest) == kv + Flatten(inputs)
    ensures |kv| <= |kv'| <= |kv| + most && (AllTokens(inputs) ==> |kv'| == |kv| + most)
  {
    var chunk, length;
    chunk, rest, length := Prefill.Chunk(inputs, most);
    ConcatAssoc(kv, Flatten(chunk), Flatten(rest));
    kv' := kv + Flatten(chunk);
  }

  function Least(a: nat, b: nat): nat {
    if a < b then a else b
  }

  /** One decode step: the newest token is computed, and another one is sampled. */
  lemma DecodedConserves(q: Req, sample: Token)
    requires q.status == Alive && q.inputs == [] && Conserved(q)
    ensures q.committed != []
    ensures Conserved(q.(kv := q.kv + [Tok(q.committed[|q.committed| - 1])], committed := q.committed + [sample]))
  {
    var n := |q.committed| - 1;
    var before, newest := q.committed[..n], [q.committed[n]];
    assert q.committed == before + newest;
    Prefill.UnitsConcat(before, newest);
    assert Units(TokenData(newest)) == [Tok(q.committed[n])];
    ConcatAssoc(Flatten(q.prompt), Units(TokenData(before)), Units(TokenData(newest)));
    assert (q.committed + [sample])[..n + 1] == q.committed;
  }

  /** The requests ready to decode are running ones, each named once. */
  lemma {:induction false} ReadyMembers(reqs: Requests, running: seq<ReqId>)
    ensures forall r :: r in ReadyOnes(reqs, running) <==> r in running && Ready(reqs, r)
    ensures NoDup(running) ==> NoDup(ReadyOnes(reqs, running))
  {
    if running != [] {
      assert running == [running[0]] + running[1..];
      assert forall r :: r in running <==> r == running[0] || r in running[1..];
      ReadyMembers(reqs, running[1..]);
    }
  }
}
