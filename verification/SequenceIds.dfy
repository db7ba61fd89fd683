/** Sequence ids: every id handed out is in exactly one place. */
module SequenceIds {
  import opened Lists
  import opened Tokens
  import opened Queues
  import Cache = PrefixCache

  /** Where ids can be: free to be handed out, in the cache, with a request, lost for good, or on the way. */
  datatype Places = Places(
    available: seq<SeqId>, count: nat, states: map<SeqId, Cache.SequenceState>, holder: map<SeqId, ReqId>,
    leaked: set<SeqId>, hand: set<SeqId>)

  function Times(b: bool): nat {
    if b then 1 else 0
  }

  /** An id handed out so far is in exactly one place; an active sequence may belong to a request and the cache. */
  predicate Tracked(p: Places, i: SeqId) {
    Times(i in p.available) + Times(i in p.states || i in p.holder) + Times(i in p.leaked) + Times(i in p.hand)
    == Times(0 <= i < p.count)
  }

  ghost predicate IdsOk(p: Places) {
    NoDup(p.available) && forall i {:trigger Tracked(p, i)} :: Tracked(p, i)
  }

  predicate HasId(reqs: Requests, holder: map<SeqId, ReqId>, r: ReqId) {
    r in reqs ==> reqs[r].seqId in holder && holder[reqs[r].seqId] == r
  }

  predicate OfRequest(reqs: Requests, holder: map<SeqId, ReqId>, states: map<SeqId, Cache.SequenceState>, i: SeqId) {
    i in holder ==>
      && holder[i] in reqs && reqs[holder[i]].seqId == i
      && (i in states ==> states[i] == Cache.Active && reqs[holder[i]].status == Alive)
  }

  /** holder is the inverse of the requests' ids; what the cache keeps for reuse belongs to no request. */
  ghost predicate Held(reqs: Requests, holder: map<SeqId, ReqId>, states: map<SeqId, Cache.SequenceState>) {
    && (forall r {:trigger HasId(reqs, holder, r)} :: HasId(reqs, holder, r))
    && (forall i {:trigger OfRequest(reqs, holder, states, i)} :: OfRequest(reqs, holder, states, i))
  }

  /** Exactly one of the kept sequences goes, and its id comes back. */
  ghost predicate Evicts(b: Cache.Books, available: seq<SeqId>, b': Cache.Books, available': seq<SeqId>) {
    exists e :: e in b.lrus && b' == Cache.Forget(b, e) && available' == available + [e]
  }

  /** A sequence is kept for reuse; at the limit exactly one other kept sequence goes, and its id comes back. */
  ghost predicate KeptFor(b: Cache.Books, available: seq<SeqId>, b': Cache.Books, available': seq<SeqId>, id: SeqId,
                          limit: int) {
    if |b.lrus| != limit then b' == Cache.Keep(b, id) && available' == available
    else exists e :: e in b.lrus && b' == Cache.Keep(Cache.Forget(b, e), id) && available' == available + [e]
  }

  /** Where the id of a finished sequence goes: back at once, into the cache for reuse, or nowhere if it is pinned. */
  ghost predicate Released(b: Cache.Books, available: seq<SeqId>, b': Cache.Books, available': seq<SeqId>, id: SeqId,
                           limit: int, keep: bool, pinned: bool) {
    if id !in b.states then b' == b && available' == available + [id]
    else if pinned then b' == b && available' == available
    else if keep && limit != 0 then KeptFor(b, available, b', available', id, limit)
    else b' == Cache.Forget(b, id) && available' == available + [id]
  }

  /** What the prefix cache does when it recycles a sequence is what the engine sees. */
  lemma RecyclesReleases(limit: int, e: Cache.Eager, id: SeqId, keep: bool, ids: seq<SeqId>, e': Cache.Eager,
                         available: seq<SeqId>)
    requires id in e.books.states && Cache.Recycles(limit, e, id, keep, ids, e')
    ensures Released(e.books, available, e'.books, available + ids, id, limit, keep, false)
  {
    if keep && limit != 0 {
      RecyclesKeeps(limit, e, id, ids, e', available);
    }
  }

  lemma RecyclesKeeps(limit: int, e: Cache.Eager, id: SeqId, ids: seq<SeqId>, e': Cache.Eager, available: seq<SeqId>)
    requires limit != 0 && Cache.Recycles(limit, e, id, true, ids, e')
    ensures KeptFor(e.books, available, e'.books, available + ids, id, limit)
  {
    if |e.books.lrus| == limit {
      var gone := ids[0];
      assert ids == [gone] && gone in e.books.lrus;
    } else {
      assert available + [] == available;
    }
  }

  /** The same when it frees memory. */
  lemma FreesEvicts(e: Cache.Eager, ids: seq<SeqId>, e': Cache.Eager, available: seq<SeqId>)
    requires Cache.Frees(e, ids, e')
    ensures if exists id :: id in e.books.lrus then Evicts(e.books, available, e'.books, available + ids)
            else e'.books == e.books && ids == []
  {
    if exists id :: id in e.books.lrus {
      assert ids == [ids[0]];
    }
  }

  predicate Absent(states: map<SeqId, Cache.SequenceState>, i: SeqId) {
    i !in states
  }

  /** A disabled cache holds no sequence. */
  ghost predicate NothingCached(states: map<SeqId, Cache.SequenceState>) {
    forall i {:trigger Absent(states, i)} :: Absent(states, i)
  }

  lemma TakeLast(p: Places)
    requires IdsOk(p) && p.available != [] && p.hand == {}
    ensures var n := |p.available| - 1; IdsOk(p.(available := p.available[..n], hand := {p.available[n]}))
  {
    var n := |p.available| - 1;
    var id := p.available[n];
    var p' := p.(available := p.available[..n], hand := {id});
    assert id in p.available;
    forall i ensures Tracked(p', i) {
      assert Tracked(p, i);
      assert i in p.available[..n] <==> i in p.available && i != id;
    }
  }

  lemma TakeNew(p: Places)
    requires IdsOk(p) && p.available == [] && p.hand == {}
    ensures IdsOk(p.(count := p.count + 1, hand := {p.count}))
  {
    var p' := p.(count := p.count + 1, hand := {p.count});
    forall i ensures Tracked(p', i) {
      assert Tracked(p, i);
    }
  }

  lemma Recycled(p: Places, id: SeqId)
    requires IdsOk(p) && p.hand == {id}
    ensures IdsOk(p.(available := p.available + [id], hand := {}))
  {
    assert Tracked(p, id);
    var p' := p.(available := p.available + [id], hand := {});
    forall i ensures Tracked(p', i) {
      assert Tracked(p, i);
    }
  }

  lemma Lost(p: Places, id: SeqId)
    requires IdsOk(p) && p.hand == {id}
    ensures IdsOk(p.(leaked := p.leaked + {id}, hand := {}))
  {
    var p' := p.(leaked := p.leaked + {id}, hand := {});
    forall i ensures Tracked(p', i) {
      assert Tracked(p, i);
    }
  }

  lemma ToRequest(p: Places, id: SeqId, r: ReqId)
    requires IdsOk(p) && p.hand == {id}
    ensures id !in p.holder && id !in p.states
    ensures IdsOk(p.(holder := p.holder[id := r], hand := {}))
  {
    assert Tracked(p, id);
    var p' := p.(holder := p.holder[id := r], hand := {});
    forall i ensures Tracked(p', i) {
      assert Tracked(p, i);
    }
  }

  lemma FromRequest(p: Places, id: SeqId)
    requires IdsOk(p) && p.hand == {} && id in p.holder
    ensures IdsOk(p.(holder := p.holder - {id}, hand := if id in p.states then {} else {id}))
  {
    var p' := p.(holder := p.holder - {id}, hand := if id in p.states then {} else {id});
    forall i ensures Tracked(p', i) {
      assert Tracked(p, i);
    }
  }

  lemma FromCache(p: Places, id: SeqId)
    requires IdsOk(p) && p.hand == {} && id in p.states && id !in p.holder
    ensures IdsOk(p.(states := p.states - {id}, hand := {id}))
  {
    var p' := p.(states := p.states - {id}, hand := {id});
    forall i ensures Tracked(p', i) {
      assert Tracked(p, i);
    }
  }

  /** The cache changes the state of a sequence, or takes one in that already has a place. */
  lemma InCache(p: Places, states: map<SeqId, Cache.SequenceState>)
    requires IdsOk(p)
    requires forall i :: (i in states || i in p.holder) <==> (i in p.states || i in p.holder)
    ensures IdsOk(p.(states := states))
  {
    var p' := p.(states := states);
    forall i ensures Tracked(p', i) {
      assert Tracked(p, i);
    }
  }

  /** A request takes over a sequence that the cache had kept. */
  lemma TakenOver(p: Places, id: SeqId, r: ReqId, states: map<SeqId, Cache.SequenceState>)
    requires IdsOk(p) && id in p.states && states.Keys == p.states.Keys
    ensures IdsOk(p.(holder := p.holder[id := r], states := states))
  {
    var p' := p.(holder := p.holder[id := r], states := states);
    forall i ensures Tracked(p', i) {
      assert Tracked(p, i);
      assert i in states <==> i in p.states;
    }
  }

  /** No id is at once free to be handed out and with a request or in the cache, and no two requests share one. */
  lemma IdsExclusive(p: Places, reqs: Requests)
    requires IdsOk(p) && Held(reqs, p.holder, p.states)
    ensures NoDup(p.available)
    ensures forall r :: r in reqs ==> reqs[r].seqId !in p.available && 0 <= reqs[r].seqId < p.count
    ensures forall i :: i in p.states ==> i !in p.available
    ensures forall r, r' :: r in reqs && r' in reqs && reqs[r].seqId == reqs[r'].seqId ==> r == r'
    ensures forall r :: r in reqs && reqs[r].seqId in p.states ==> p.states[reqs[r].seqId] == Cache.Active
  {
    forall r | r in reqs
      ensures HasId(reqs, p.holder, r) && Tracked(p, reqs[r].seqId)
      ensures OfRequest(reqs, p.holder, p.states, reqs[r].seqId)
    {
    }
    forall i | i in p.states ensures Tracked(p, i) {
    }
  }

  lemma HeldAdd(reqs: Requests, holder: map<SeqId, ReqId>, states: map<SeqId, Cache.SequenceState>, r: ReqId, q: Req)
    requires Held(reqs, holder, states) && r !in reqs && q.seqId !in holder && q.seqId !in states
    ensures Held(reqs[r := q], holder[q.seqId := r], states)
  {
    var reqs', holder' := reqs[r := q], holder[q.seqId := r];
    forall x ensures HasId(reqs', holder', x) {
      assert HasId(reqs, holder, x);
    }
    forall i ensures OfRequest(reqs', holder', states, i) {
      assert OfRequest(reqs, holder, states, i);
    }
  }

  lemma HeldRemove(reqs: Requests, holder: map<SeqId, ReqId>, states: map<SeqId, Cache.SequenceState>, r: ReqId)
    requires Held(reqs, holder, states) && r in reqs
    ensures Held(reqs - {r}, holder - {reqs[r].seqId}, states)
    ensures reqs[r].seqId in holder
    ensures reqs[r].seqId in states ==> states[reqs[r].seqId] == Cache.Active && reqs[r].status == Alive
  {
    var id := reqs[r].seqId;
    assert HasId(reqs, holder, r) && OfRequest(reqs, holder, states, id);
    forall x ensures HasId(reqs - {r}, holder - {id}, x) {
      assert HasId(reqs, holder, x);
    }
    forall i ensures OfRequest(reqs - {r}, holder - {id}, states, i) {
      assert OfRequest(reqs, holder, states, i);
    }
  }

  /** The state of a sequence changes that no request has, or it becomes active with an alive request. */
  lemma HeldStates(reqs: Requests, holder: map<SeqId, ReqId>, states: map<SeqId, Cache.SequenceState>,
                   states': map<SeqId, Cache.SequenceState>)
    requires Held(reqs, holder, states)
    requires forall i :: i in states' && i in holder ==> i in states && states'[i] == states[i]
    ensures Held(reqs, holder, states')
  {
    forall i ensures OfRequest(reqs, holder, states', i) {
      assert OfRequest(reqs, holder, states, i);
    }
  }

  /** A request becomes, or stays, alive under the same id, and its sequence may enter the cache. */
  lemma HeldAlive(reqs: Requests, holder: map<SeqId, ReqId>, states: map<SeqId, Cache.SequenceState>, r: ReqId, q: Req)
    requires Held(reqs, holder, states) && r in reqs && q.seqId == reqs[r].seqId && q.status == Alive
    ensures Held(reqs[r := q], holder, states) && Held(reqs[r := q], holder, states[q.seqId := Cache.Active])
    ensures q.seqId in holder
  {
    assert HasId(reqs, holder, r);
    var reqs', states' := reqs[r := q], states[q.seqId := Cache.Active];
    forall x ensures HasId(reqs', holder, x) {
      assert HasId(reqs, holder, x);
    }
    forall i ensures OfRequest(reqs', holder, states, i) && OfRequest(reqs', holder, states', i) {
      assert OfRequest(reqs, holder, states, i);
    }
  }

  /** A request gives its own id up and takes over a sequence that the cache had kept. */
  lemma HeldTakeOver(reqs: Requests, holder: map<SeqId, ReqId>, states: map<SeqId, Cache.SequenceState>,
                     r: ReqId, q: Req)
    requires Held(reqs, holder, states) && r in reqs && q.status == Alive
    requires q.seqId in states && states[q.seqId] == Cache.Recycling
    ensures reqs[r].seqId in holder && q.seqId !in holder
    ensures Held(reqs[r := q], (holder - {reqs[r].seqId})[q.seqId := r], states[q.seqId := Cache.Active])
  {
    var id := reqs[r].seqId;
    assert HasId(reqs, holder, r) && OfRequest(reqs, holder, states, q.seqId);
    var reqs', holder', states' := reqs[r := q], (holder - {id})[q.seqId := r], states[q.seqId := Cache.Active];
    forall x ensures HasId(reqs', holder', x) {
      assert HasId(reqs, holder, x);
    }
    forall i ensures OfRequest(reqs', holder', states', i) {
      assert OfRequest(reqs, holder, states, i);
    }
  }
}
