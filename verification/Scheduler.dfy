/**
 The scheduler for requests with a single generation each: waiting and running queue, prefill,
 decode, preemption, finish and abort, the list of requests ready to decode, and who owns which
 sequence id.
 */
module Scheduler {
  import opened Lists
  import opened Tokens
  import opened PromptData
  import opened Queues
  import opened SequenceIds
  import Cache = PrefixCache
  import Prefill

  class EngineState {
    const limit: int
    /** Whether the prefix cache is in use. */
    const cached: bool
    var reqs: Requests
    var waiting: seq<ReqId>
    var running: seq<ReqId>
    var dirty: bool
    var cachedRunning: seq<ReqId>
    var available: seq<SeqId>
    var idCount: nat
    var books: Cache.Books
    /** Which request has which id, and the ids that nobody will ever give back. */
    ghost var holder: map<SeqId, ReqId>
    ghost var leaked: set<SeqId>

    ghost predicate Ids(hand: set<SeqId>)
      reads this
    {
      IdsOk(Places(available, idCount, books.states, holder, leaked, hand)) && Cache.Consistent(books, limit)
      && (!cached ==> NothingCached(books.states))
    }

    ghost predicate ListOk()
      reads this
    {
      !dirty ==> cachedRunning == ReadyOnes(reqs, running)
    }

    ghost predicate Valid()
      reads this
    {
      QueuesOk(reqs, waiting, running) && Ids({}) && Held(reqs, holder, books.states) && ListOk()
    }

    constructor (limit: int, cached: bool)
      ensures Valid() && reqs == map[] && leaked == {} && this.limit == limit && this.cached == cached
    {
      this.limit, this.cached := limit, cached;
      reqs, waiting, running, dirty, cachedRunning := map[], [], [], true, [];
      available, idCount, books := [], 0, Cache.Books(map[], map[], map[], map[], 0);
      holder, leaked := map[], {};
    }

    // -------------------------------------------------------------- ids

    method GetNewId() returns (id: SeqId)
      requires Ids({})
      modifies this`available, this`idCount
      ensures Ids({id})
      ensures old(available) != [] ==> available + [id] == old(available)
    {
      ghost var p := Places(available, idCount, books.states, holder, leaked, {});
      if available != [] {
        TakeLast(p);
        id := available[|available| - 1];
        available := available[..|available| - 1];
      } else {
        TakeNew(p);
        id := idCount;
        idCount := idCount + 1;
      }
    }

    method RecycleId(id: SeqId)
      requires Ids({id})
      modifies this`available
      ensures Ids({}) && available == old(available) + [id]
    {
      Recycled(Places(available, idCount, books.states, holder, leaked, {id}), id);
      available := available + [id];
    }

    /** Nobody gives this id back. */
    ghost method Lose(id: SeqId)
      requires Ids({id})
      modifies this`leaked
      ensures Ids({}) && leaked == old(leaked) + {id}
    {
      Lost(Places(available, idCount, books.states, holder, leaked, {id}), id);
      leaked := leaked + {id};
    }

    /** The cache drops a sequence that no request has; its id comes back through the callback. */
    method RemoveFromCache(id: SeqId)
      requires Ids({}) && Held(reqs, holder, books.states) && id in books.states && id !in holder
      modifies this`books, this`available
      ensures Ids({}) && Held(reqs, holder, books.states)
      ensures books == Cache.Forget(old(books), id) && available == old(available) + [id]
    {
      assert Absent(books.states, id) ==> cached;
      Cache.ForgetAny(books, limit, id);
      FromCache(Places(available, idCount, books.states, holder, leaked, {}), id);
      HeldStates(reqs, holder, books.states, books.states - {id});
      books := Cache.Forget(books, id);
      RecycleId(id);
    }

    /** The prefix cache is asked to free memory; which kept sequence it drops is its own choice. */
    method TryFreeMemory() returns (freed: bool)
      requires Valid()
      modifies this`books, this`available
      ensures Valid() && (freed <==> exists id :: id in old(books.lrus))
      ensures freed ==> |books.lrus| < |old(books.lrus)|
      ensures freed ==> Evicts(old(books), old(available), books, available)
      ensures !freed ==> books == old(books) && available == old(available)
    {
      if id :| id in books.lrus {
        assert OfRequest(reqs, holder, books.states, id) && Cache.Entered(books, id);
        Cache.ForgetKept(books, limit, id);
        RemoveFromCache(id);
        freed := true;
      } else {
        freed := false;
      }
    }

    /** A request lets go of its sequence: it is kept for reuse, or dropped together with its id. */
    method RecycleSequence(id: SeqId, keep: bool)
      requires Ids({}) && Held(reqs, holder, books.states)
      requires id in books.states && books.states[id] == Cache.Active && id !in holder
      modifies this`books, this`available
      ensures Ids({}) && Held(reqs, holder, books.states)
      ensures Released(old(books), old(available), books, available, id, limit, keep, false)
    {
      if keep && limit != 0 {
        MakeRoom(id);
        KeepInCache(id);
      } else {
        RemoveFromCache(id);
      }
    }

    method MakeRoom(ghost active: SeqId)
      requires Ids({}) && Held(reqs, holder, books.states) && limit != 0
      requires active in books.states && books.states[active] == Cache.Active
      modifies this`books, this`available
      ensures Ids({}) && Held(reqs, holder, books.states) && (limit < 0 || |books.lrus| < limit)
      ensures active in books.states && books.states[active] == Cache.Active
      ensures if |old(books).lrus| == limit then Evicts(old(books), old(available), books, available)
              else books == old(books) && available == old(available)
    {
      if |books.lrus| == limit {
        assert exists id :: id in books.lrus by {
          var some := Pick(books.lrus.Keys);
        }
        var evicted :| evicted in books.lrus;
        assert OfRequest(reqs, holder, books.states, evicted);
        assert Cache.Entered(books, evicted) && Cache.Entered(books, active);
        Cache.ForgetKept(books, limit, evicted);
        RemoveFromCache(evicted);
      }
    }

    method KeepInCache(id: SeqId)
      requires Ids({}) && Held(reqs, holder, books.states) && (limit < 0 || |books.lrus| < limit)
      requires id in books.states && books.states[id] == Cache.Active && id !in holder
      modifies this`books
      ensures Ids({}) && Held(reqs, holder, books.states) && books == Cache.Keep(old(books), id)
    {
      assert Absent(books.states, id) ==> cached;
      Cache.KeepKeeps(books, limit, id);
      InCache(Places(available, idCount, books.states, holder, leaked, {}), Cache.Keep(books, id).states);
      HeldStates(reqs, holder, books.states, Cache.Keep(books, id).states);
      books := Cache.Keep(books, id);
    }

    /** A sequence in the cache is recycled there, unless it is pinned; otherwise its id is given back directly. */
    method LetGo(id: SeqId, keep: bool, pinned: bool)
      requires Ids(if id in books.states then {} else {id}) && Held(reqs, holder, books.states) && id !in holder
      requires id in books.states ==> books.states[id] == Cache.Active
      modifies this`books, this`available
      ensures Ids({}) && Held(reqs, holder, books.states)
      ensures Released(old(books), old(available), books, available, id, limit, keep, pinned)
    {
      if id in books.states {
        if !pinned {
          RecycleSequence(id, keep);
        }
      } else {
        RecycleId(id);
      }
    }

    // -------------------------------------------------------------- requests

    method AddRequest(r: ReqId, prompt: seq<Data>)
      requires Valid() && r !in reqs
      modifies this
      ensures Valid() && leaked == old(leaked) && r in reqs
      ensures reqs == old(reqs)[r := Req(prompt, Pending, reqs[r].seqId, prompt, [], [])]
      ensures waiting == old(waiting) + [r] && running == old(running)
    {
      var id := GetNewId();
      ToRequest(Places(available, idCount, books.states, holder, leaked, {id}), id, r);
      var q := Req(prompt, Pending, id, prompt, [], []);
      Enqueue(reqs, waiting, running, r, q);
      HeldAdd(reqs, holder, books.states, r, q);
      ReadySame(reqs, reqs[r := q], running);
      holder := holder[id := r];
      waiting := waiting + [r];
      reqs := reqs[r := q];
    }

    /** The requests that take part in decoding, recomputed only when something has changed. */
    method GetRunning() returns (list: seq<ReqId>)
      requires Valid()
      modifies this`dirty, this`cachedRunning
      ensures Valid() && !dirty && list == ReadyOnes(reqs, running)
    {
      if dirty {
        cachedRunning := [];
        for i := 0 to |running|
          invariant cachedRunning == ReadyOnes(reqs, running[..i])
        {
          ReadySnoc(reqs, running[..i], running[i]);
          TakeNext(running, i);
          var r := running[i];
          RunningIsAlive(reqs, waiting, running, r);
          if reqs[r].status == Alive && reqs[r].inputs == [] {
            cachedRunning := cachedRunning + [r];
          }
        }
        assert running[..|running|] == running;
        dirty := false;
      }
      list := cachedRunning;
    }

    /** A request is taken out of the tables; its id is with the cache, or in hand. */
    method Release(r: ReqId) returns (id: SeqId)
      requires Ids({}) && Held(reqs, holder, books.states) && QueuesOk(reqs, waiting, running) && r in reqs
      modifies this`reqs, this`waiting, this`running, this`dirty, this`holder
      ensures id == old(reqs)[r].seqId && holder == old(holder) - {id} && id !in holder
      ensures Ids(if id in books.states then {} else {id}) && (id in books.states ==> books.states[id] == Cache.Active)
      ensures id in books.states ==> old(reqs)[r].status == Alive
      ensures Held(reqs, holder, books.states) && QueuesOk(reqs, waiting, running) && dirty
      ensures reqs == old(reqs) - {r} && waiting == Without(old(waiting), r) && running == Without(old(running), r)
    {
      id := reqs[r].seqId;
      HeldRemove(reqs, holder, books.states, r);
      FromRequest(Places(available, idCount, books.states, holder, leaked, {}), id);
      Drop(reqs, waiting, running, r);
      holder := holder - {id};
      running := Without(running, r);
      waiting := Without(waiting, r);
      reqs := reqs - {r};
      dirty := true;
    }

    /** A request has finished: its sequence is kept for reuse, or its id is given back; a pinned one stays. */
    method Finish(r: ReqId, pinned: bool)
      requires Valid() && Ready(reqs, r)
      modifies this`reqs, this`waiting, this`running, this`dirty, this`holder, this`books, this`available
      ensures Valid() && reqs == old(reqs) - {r} && running == Without(old(running), r)
      ensures Released(old(books), old(available), books, available, old(reqs)[r].seqId, limit, true, pinned)
    {
      var id := Release(r);
      LetGo(id, true, pinned);
    }

    /** A request is dropped in whatever state it is. Only a running one gives its id back. */
    method Abort(r: ReqId)
      requires Valid()
      modifies this`reqs, this`waiting, this`running, this`dirty, this`holder, this`books, this`available, this`leaked
      ensures Valid() && reqs == old(reqs) - {r}
      ensures waiting == Without(old(waiting), r) && running == Without(old(running), r)
      ensures r !in old(reqs) ==> leaked == old(leaked) && available == old(available)
      ensures r in old(running) ==>
                && r in old(reqs) && leaked == old(leaked)
                && Released(old(books), old(available), books, available, old(reqs)[r].seqId, limit, false, false)
      ensures r in old(reqs) && r !in old(running) ==> leaked == old(leaked) + {old(reqs)[r].seqId}
    {
      RunningIsAlive(reqs, waiting, running, r);
      if r !in reqs {
        assert reqs == reqs - {r};
        WithoutAbsent(waiting, r);
        WithoutAbsent(running, r);
      } else if r in running {
        AbortRunning(r);
      } else {
        AbortWaiting(r);
      }
    }

    method AbortRunning(r: ReqId)
      requires Valid() && r in reqs && r in running
      modifies this`reqs, this`waiting, this`running, this`dirty, this`holder, this`books, this`available
      ensures Valid() && reqs == old(reqs) - {r}
      ensures waiting == Without(old(waiting), r) && running == Without(old(running), r)
      ensures Released(old(books), old(available), books, available, old(reqs)[r].seqId, limit, false, false)
    {
      var id := Release(r);
      LetGo(id, false, false);
    }

    method AbortWaiting(r: ReqId)
      requires Valid() && r in reqs && r !in running
      modifies this`reqs, this`waiting, this`running, this`dirty, this`holder, this`leaked
      ensures Valid() && reqs == old(reqs) - {r} && leaked == old(leaked) + {old(reqs)[r].seqId}
      ensures waiting == Without(old(waiting), r) && running == Without(old(running), r)
    {
      RunningIsAlive(reqs, waiting, running, r);
      var id := Release(r);
      Lose(id);
    }

    /** The id of a preempted request: given back through the cache, or lost. */
    method GiveUpId(id: SeqId)
      requires Ids(if id in books.states then {} else {id}) && Held(reqs, holder, books.states) && id !in holder
      modifies this`books, this`available, this`leaked
      ensures Ids({}) && Held(reqs, holder, books.states)
      ensures leaked == old(leaked) + if id in old(books.states) then {} else {id}
      ensures books == if id in old(books.states) then Cache.Forget(old(books), id) else old(books)
      ensures id !in old(books.lrus) ==> books.lrus == old(books.lrus)
    {
      if id in books.states {
        if id !in books.lrus {
          Cache.ForgetActive(books, limit, id);
        }
        RemoveFromCache(id);
      } else {
        Lose(id);
      }
    }

    /** Takes a request out of the table while it is rebuilt. */
    method Detach(r: ReqId) returns (id: SeqId)
      requires Ids({}) && Held(reqs, holder, books.states) && r in reqs
      modifies this`reqs, this`holder
      ensures id == old(reqs)[r].seqId && holder == old(holder) - {id} && id !in holder && reqs == old(reqs) - {r}
      ensures Ids(if id in books.states then {} else {id}) && Held(reqs, holder, books.states)
      ensures id in books.states ==> books.states[id] == Cache.Active
    {
      id := reqs[r].seqId;
      HeldRemove(reqs, holder, books.states, r);
      FromRequest(Places(available, idCount, books.states, holder, leaked, {}), id);
      holder := holder - {id};
      reqs := reqs - {r};
    }

    /** Puts a request back under a new id. */
    method Attach(r: ReqId, q: Req)
      requires Ids({}) && Held(reqs, holder, books.states) && r !in reqs
      modifies this`reqs, this`holder, this`available, this`idCount
      ensures Ids({}) && Held(reqs, holder, books.states)
      ensures r in reqs && reqs == old(reqs)[r := q.(seqId := reqs[r].seqId)]
    {
      var id := GetNewId();
      ToRequest(Places(available, idCount, books.states, holder, leaked, {id}), id, r);
      HeldAdd(reqs, holder, books.states, r, q.(seqId := id));
      holder := holder[id := r];
      reqs := reqs[r := q.(seqId := id)];
    }

    /** Replaces the state of a request and gives it a new id. */
    method Rehouse(r: ReqId, q: Req)
      requires Ids({}) && Held(reqs, holder, books.states) && r in reqs
      modifies this`reqs, this`holder, this`available, this`idCount, this`books, this`leaked
      ensures Ids({}) && Held(reqs, holder, books.states)
      ensures r in reqs && reqs == old(reqs)[r := q.(seqId := reqs[r].seqId)]
      ensures books.lrus == old(books.lrus)
      ensures var id := old(reqs)[r].seqId;
              books == if id in old(books.states) then Cache.Forget(old(books), id) else old(books)
      ensures leaked == old(leaked) + if old(reqs)[r].seqId in old(books.states) then {} else {old(reqs)[r].seqId}
    {
      var id := Detach(r);
      assert Cache.Entered(books, id);
      GiveUpId(id);
      Attach(r, q);
    }

    /**
     The last running request loses its place: it has to process its prompt and all its tokens
     again, under a new id, and waits in front of all others.
     */
    method PreemptLast() returns (r: ReqId)
      requires Valid() && running != []
      modifies this
      ensures Valid() && r == old(running)[|old(running)| - 1] && r in old(reqs)
      ensures r in reqs && reqs == old(reqs)[r := reqs[r]] && PreemptedFrom(old(reqs)[r], reqs[r])
      ensures var q, q' := old(reqs)[r], reqs[r];
              && q'.status == Pending && q'.kv == [] && q'.prompt == q.prompt && q'.committed == q.committed
              && Flatten(q'.inputs) == Flatten(q.prompt) + Units(TokenData(q.committed))
      ensures waiting == if old(reqs)[r].inputs == [] then [r] + old(waiting) else old(waiting)
      ensures running == old(running)[..|old(running)| - 1] && dirty
      ensures books.lrus == old(books.lrus)
      ensures var id := old(reqs)[r].seqId;
              books == if id in old(books.states) then Cache.Forget(old(books), id) else old(books)
      ensures leaked == old(leaked) + if old(reqs)[r].seqId in old(books.states) then {} else {old(reqs)[r].seqId}
    {
      r := running[|running| - 1];
      RunningIsAlive(reqs, waiting, running, r);
      var q := reqs[r];
      var q' := q.(status := Pending, inputs := Requeued(q.prompt, q.committed), kv := []);
      RequeuedFlat(q.prompt, q.committed);
      Rehouse(r, q');
      Displace(r, old(reqs), q.inputs == []);
    }

    /** Queues after a preemption. */
    method Displace(r: ReqId, ghost before: Requests, front: bool)
      requires running != [] && r == running[|running| - 1] && QueuesOk(before, waiting, running)
      requires r in before && r in reqs && reqs == before[r := reqs[r]]
      requires front <==> before[r].inputs == []
      requires reqs[r].status == Pending && reqs[r].prompt != [] && Conserved(reqs[r])
      modifies this`waiting, this`running, this`dirty
      ensures QueuesOk(reqs, waiting, running) && dirty && running == old(running)[..|old(running)| - 1]
      ensures waiting == if front then [r] + old(waiting) else old(waiting)
    {
      SendBack(before, waiting, running, reqs[r]);
      running := running[..|running| - 1];
      if front {
        waiting := [r] + waiting;
      }
      dirty := true;
    }

    // -------------------------------------------------------------- prefill

    /** What the prefix cache may answer to a prompt of `length` tokens. */
    predicate Answers(answer: Cache.Matched, length: nat)
      reads this
    {
      Prefill.MatchedLength(answer) < length && (answer.Reused? ==> answer.reusedId in books.lrus)
    }

    /** A request without a sequence in the cache goes on under its own id. */
    method GoOn(r: ReqId, q: Req)
      requires Ids({}) && Held(reqs, holder, books.states) && r in reqs
      requires q.status == Alive && q.seqId == reqs[r].seqId
      modifies this`reqs
      ensures Ids({}) && Held(reqs, holder, books.states) && reqs == old(reqs)[r := q]
    {
      HeldAlive(reqs, holder, books.states, r, q);
      reqs := reqs[r := q];
    }

    /** The prompt of a request is entered in the cache under the request's own id. */
    method EnterCache(r: ReqId, q: Req, window: Cache.Window)
      requires cached && Ids({}) && Held(reqs, holder, books.states) && r in reqs && q.seqId !in books.states
      requires q.status == Alive && q.seqId == reqs[r].seqId
      modifies this`reqs, this`books
      ensures Ids({}) && Held(reqs, holder, books.states) && reqs == old(reqs)[r := q]
      ensures books == Cache.Enter(old(books), q.seqId, window)
    {
      HeldAlive(reqs, holder, books.states, r, q);
      InCache(Places(available, idCount, books.states, holder, leaked, {}), books.states[q.seqId := Cache.Active]);
      Cache.EnterKeeps(books, limit, q.seqId, window);
      books := Cache.Enter(books, q.seqId, window);
      reqs := reqs[r := q];
    }

    /** A request takes over a sequence that the cache kept, and gives its own id back. */
    method TakeOver(r: ReqId, q: Req)
      requires Ids({}) && Held(reqs, holder, books.states) && r in reqs && reqs[r].seqId !in books.states
      requires q.status == Alive && q.seqId in books.lrus
      modifies this`reqs, this`books, this`available, this`holder
      ensures Ids({}) && Held(reqs, holder, books.states) && reqs == old(reqs)[r := q]
      ensures books == Cache.Activate(old(books), q.seqId) && available == old(available) + [old(reqs)[r].seqId]
    {
      var id := reqs[r].seqId;
      assert Cache.Entered(books, q.seqId);
      assert Absent(books.states, q.seqId) ==> cached;
      HeldTakeOver(reqs, holder, books.states, r, q);
      FromRequest(Places(available, idCount, books.states, holder, leaked, {}), id);
      holder := holder - {id};
      RecycleId(id);
      TakenOver(Places(available, idCount, books.states, holder, leaked, {}), q.seqId, r,
                Cache.Activate(books, q.seqId).states);
      Cache.ActivateKeeps(books, limit, q.seqId);
      holder := holder[q.seqId := r];
      books := Cache.Activate(books, q.seqId);
      reqs := reqs[r := q];
    }

    /** Queues after a prefill. */
    method Requeue(r: ReqId, ghost before: Requests, started: bool)
      requires r in waiting && r in before && QueuesOk(before, waiting, running)
      requires started <==> before[r].status == Pending
      requires r in reqs && reqs == before[r := reqs[r]]
      requires reqs[r].status == Alive && reqs[r].prompt != [] && Conserved(reqs[r])
      modifies this`waiting, this`running, this`dirty
      ensures QueuesOk(reqs, waiting, running) && dirty
      ensures running == old(running) + if started then [r] else []
      ensures waiting == if reqs[r].inputs == [] then Without(old(waiting), r) else old(waiting)
    {
      Advance(before, waiting, running, r, reqs[r]);
      if started {
        running := running + [r];
      }
      if reqs[r].inputs == [] {
        waiting := Without(waiting, r);
      }
      dirty := true;
    }

    /** Looks a token prompt up in the prefix cache, whose answer decides about id and cache. */
    method PrefillMatched(r: ReqId, q: Req, answer: Cache.Matched, window: Cache.Window)
      requires cached && Ids({}) && Held(reqs, holder, books.states) && r in reqs && reqs[r].status == Pending
      requires q.status == Alive && q.seqId == reqs[r].seqId && (answer.Reused? ==> answer.reusedId in books.lrus)
      modifies this`reqs, this`books, this`available, this`holder
      ensures Ids({}) && Held(reqs, holder, books.states)
      ensures reqs == old(reqs)[r := q.(seqId := Cache.ActiveId(q.seqId, answer))]
      ensures q.seqId !in old(books.states) && books == Cache.BooksAfter(old(books), q.seqId, window, answer)
      ensures available == old(available) + if answer.Reused? then [q.seqId] else []
    {
      assert HasId(reqs, holder, r) && OfRequest(reqs, holder, books.states, q.seqId);
      if answer.Reused? {
        TakeOver(r, q.(seqId := answer.reusedId));
      } else {
        EnterCache(r, q, window);
      }
    }

    /** The request goes on, with the answer of the prefix cache if it was asked. */
    method Settle(r: ReqId, q: Req, matched: bool, answer: Cache.Matched, window: Cache.Window)
      requires Ids({}) && Held(reqs, holder, books.states) && r in reqs
      requires q.status == Alive && q.seqId == reqs[r].seqId
      requires matched ==> cached && reqs[r].status == Pending && (answer.Reused? ==> answer.reusedId in books.lrus)
      modifies this`reqs, this`books, this`available, this`holder
      ensures Ids({}) && Held(reqs, holder, books.states)
      ensures reqs == old(reqs)[r := q.(seqId := if matched then Cache.ActiveId(q.seqId, answer) else q.seqId)]
      ensures books == if matched then Cache.BooksAfter(old(books), q.seqId, window, answer) else old(books)
    {
      if matched {
        PrefillMatched(r, q, answer, window);
      } else {
        GoOn(r, q);
      }
    }

    /**
     One prefill of a waiting request. A fresh token prompt starts from what the prefix cache
     answers; the request leaves the waiting queue when its prompt has been worked off.
     */
    method PrefillStep(r: ReqId, answer: Cache.Matched, window: Cache.Window, most: nat, sample: Token)
      requires Valid() && r in waiting && r in reqs && TotalLength(reqs[r].inputs) > 0 && most > 0
      requires cached && reqs[r].status == Pending && AllTokens(reqs[r].inputs) ==>
                 Answers(answer, TotalLength(reqs[r].inputs))
      modifies this`reqs, this`books, this`available, this`holder, this`waiting, this`running, this`dirty
      ensures Valid() && r in reqs && r in running && reqs == old(reqs)[r := reqs[r]]
      ensures reqs[r].status == Alive && reqs[r].prompt == old(reqs)[r].prompt
      ensures running == old(running) + if old(reqs)[r].status == Pending then [r] else []
      ensures waiting == if reqs[r].inputs == [] then Without(old(waiting), r) else old(waiting)
      ensures var q := old(reqs)[r]; var matched := cached && q.status == Pending && AllTokens(q.inputs);
              && books == (if matched then Cache.BooksAfter(old(books), q.seqId, window, answer) else old(books))
              && reqs[r].seqId == (if matched then Cache.ActiveId(q.seqId, answer) else q.seqId)
              && reqs[r].committed == q.committed + (if reqs[r].inputs == [] then [sample] else [])
              && Prefilled(q, reqs[r], if matched then Prefill.MatchedLength(answer) else 0, most)
    {
      var q := reqs[r];
      Waits(reqs, waiting, running, r);
      var matched := cached && q.status == Pending && AllTokens(q.inputs);
      var q' := Process(q, if matched then Prefill.MatchedLength(answer) else 0, most, sample);
      Settle(r, q', matched, answer, window);
      Requeue(r, old(reqs), q.status == Pending);
      RunningIsAlive(reqs, waiting, running, r);
    }

    // -------------------------------------------------------------- decode

    /**
     Memory is made available by dropping kept sequences and then by preempting requests. How
     many pages are free is up to the models, but none are needed when nobody decodes.
     */
    method MakeDecodable() returns (list: seq<ReqId>)
      requires Valid()
      modifies this
      ensures Valid() && list == ReadyOnes(reqs, running) && Shrunk(old(reqs), old(running), reqs, running)
      ensures running != old(running) ==> forall id :: id !in books.lrus
    {
      list := GetRunning();
      var pages: nat := *;
      assert Shrunk(old(reqs), old(running), reqs, running) by {
        forall r ensures Fate(reqs, running, reqs, running, r) {
        }
      }
      while |list| > pages
        invariant Valid() && list == ReadyOnes(reqs, running)
        invariant Shrunk(old(reqs), old(running), reqs, running)
        invariant running != old(running) ==> forall id :: id !in books.lrus
        decreases |books.lrus| + |running|
      {
        var freed := TryFreeMemory();
        if !freed {
          ghost var before, queue := reqs, running;
          list := PreemptFor(list);
          ShrinkMore(old(reqs), old(running), before, queue, reqs, running);
        }
        pages := *;
      }
    }

    /** Preempts one request and keeps the list of those to decode up to date. */
    method PreemptFor(list: seq<ReqId>) returns (list': seq<ReqId>)
      requires Valid() && list == ReadyOnes(reqs, running) && list != []
      modifies this
      ensures Valid() && list' == ReadyOnes(reqs, running) && books.lrus == old(books.lrus)
      ensures ShorterBy(old(reqs), old(running), reqs, running)
    {
      ghost var before, queue := reqs, running;
      var r := PreemptLast();
      LastReady(before, queue, reqs);
      list' := if r == list[|list| - 1] then list[..|list| - 1] else list;
    }

    /** Each request on the list gets one more token. */
    method DecodeAll(list: seq<ReqId>, samples: seq<Token>)
      requires Valid() && |samples| == |list| && NoDup(list) && forall r :: r in list ==> Ready(reqs, r)
      modifies this`reqs
      ensures Valid() && reqs.Keys == old(reqs.Keys)
      ensures forall i :: 0 <= i < |list| ==>
                list[i] in reqs && old(reqs)[list[i]].committed != []
                && var q := old(reqs)[list[i]];
                reqs[list[i]] == q.(kv := q.kv + [Tok(q.committed[|q.committed| - 1])],
                                    committed := q.committed + [samples[i]])
      ensures forall r :: r in reqs && r !in list ==> reqs[r] == old(reqs)[r]
      ensures forall r :: Ready(reqs, r) <==> old(Ready(reqs, r))
    {
      for i := 0 to |list|
        invariant Valid() && reqs.Keys == old(reqs.Keys)
        invariant forall j :: 0 <= j < i ==>
                    list[j] in reqs && old(reqs)[list[j]].committed != []
                    && var q := old(reqs)[list[j]];
                    reqs[list[j]] == q.(kv := q.kv + [Tok(q.committed[|q.committed| - 1])],
                                        committed := q.committed + [samples[j]])
        invariant forall r :: r in reqs && r !in list[..i] ==> reqs[r] == old(reqs)[r]
      {
        var r := list[i];
        assert r in list && r !in list[..i];
        DecodeOne(r, samples[i]);
        TakeNext(list, i);
      }
      assert list[..|list|] == list;
    }

    /** The requests that are decoded: as many of the ready ones as fit into a batch. */
    method Batch(most: nat) returns (list: seq<ReqId>)
      requires Valid()
      modifies this
      ensures Valid() && Shrunk(old(reqs), old(running), reqs, running) && NoDup(list)
      ensures list <= ReadyOnes(reqs, running) && |list| == Least(most, |ReadyOnes(reqs, running)|)
      ensures forall r :: r in list ==> Ready(reqs, r) && r in old(reqs) && reqs[r] == old(reqs)[r]
    {
      list := MakeDecodable();
      ReadyMembers(reqs, running);
      if |list| > most {
        list := list[..most];
      }
      forall r | r in list ensures Ready(reqs, r) && r in old(reqs) && reqs[r] == old(reqs)[r] {
        assert Fate(old(reqs), old(running), reqs, running, r);
      }
    }

    /**
     A decode step: as many requests are preempted as memory demands, and each of the others that
     fits into the batch gets one more token.
     */
    method DecodeStep(most: nat) returns (decoded: seq<ReqId>, samples: seq<Token>)
      requires Valid()
      modifies this
      ensures Valid() && |samples| == |decoded| && NoDup(decoded)
      ensures decoded <= ReadyOnes(reqs, running) && |decoded| == Least(most, |ReadyOnes(reqs, running)|)
      ensures running <= old(running)
      ensures forall r :: r !in decoded ==> Fate(old(reqs), old(running), reqs, running, r)
      ensures forall i :: 0 <= i < |decoded| ==>
                && decoded[i] in reqs && decoded[i] in old(reqs) && old(reqs)[decoded[i]].committed != []
                && var q := old(reqs)[decoded[i]];
                var q' := reqs[decoded[i]];
                && q'.committed == q.committed + [samples[i]]
                && q'.kv == q.kv + [Tok(q.committed[|q.committed| - 1])]
                && q'.prompt == q.prompt && q'.inputs == q.inputs && q'.status == q.status && q'.seqId == q.seqId
    {
      decoded := Batch(most);
      samples := Sample(|decoded|);
      ghost var before := reqs;
      DecodeAll(decoded, samples);
      forall r | r !in decoded ensures Fate(old(reqs), old(running), reqs, running, r) {
        assert Fate(old(reqs), old(running), before, running, r);
        assert r in reqs.Keys <==> r in before.Keys;
      }
      ReadySame(before, reqs, running);
    }

    /** The sampler may return anything. */
    method Sample(n: nat) returns (samples: seq<Token>)
      ensures |samples| == n
    {
      samples := [];
      for i := 0 to n
        invariant |samples| == i
      {
        var token: Token := *;
        samples := samples + [token];
      }
    }

    method DecodeOne(r: ReqId, sample: Token)
      requires Valid() && Ready(reqs, r)
      modifies this`reqs
      ensures Valid() && old(reqs)[r].committed != []
      ensures var q := old(reqs)[r];
              reqs == old(reqs)[r := q.(kv := q.kv + [Tok(q.committed[|q.committed| - 1])],
                                        committed := q.committed + [sample])]
    {
      assert Queued(reqs, waiting, running, r);
      DecodedConserves(reqs[r], sample);
      var q := reqs[r].(kv := reqs[r].kv + [Tok(reqs[r].committed[|reqs[r].committed| - 1])],
                        committed := reqs[r].committed + [sample]);
      HeldAlive(reqs, holder, books.states, r, q);
      Stay(reqs, waiting, running, r, q);
      ReadySame(reqs, reqs[r := q], running);
      reqs := reqs[r := q];
    }
  }

  /** Whatever the prefix cache chooses for a prompt is an answer that the engine can take. */
  lemma ChosenAnswers(e: EngineState, view: Cache.Contents, toks: seq<Token>, window: Cache.Window, r: Cache.Matched)
    requires e.Valid() && toks != []
    requires Cache.Chosen(view, e.books.states, e.books.windows, toks[..|toks| - 1], window, r)
    ensures e.Answers(r, |toks|)
  {
    if r.Reused? {
      assert Cache.Entered(e.books, r.reusedId);
    }
  }

  /** Without a prefix cache, every preemption loses an id. */
  method PreemptLosesId(e: EngineState) returns (r: ReqId)
    requires e.Valid() && e.running != [] && !e.cached
    modifies e
    ensures e.Valid() && r == old(e.running)[|old(e.running)| - 1] && r in old(e.reqs)
    ensures e.leaked == old(e.leaked) + {old(e.reqs)[r].seqId}
  {
    RunningIsAlive(e.reqs, e.waiting, e.running, e.running[|e.running| - 1]);
    assert Absent(e.books.states, e.reqs[e.running[|e.running| - 1]].seqId);
    r := e.PreemptLast();
  }

  /** A request that comes and is aborted before it runs: nobody is left, and its id is lost. */
  method AbortLosesId(limit: int, cached: bool, prompt: seq<Data>) returns (e: EngineState, id: SeqId)
    ensures e.Valid() && e.reqs == map[] && id in e.leaked && id !in e.available && id !in e.books.states
  {
    e := new EngineState(limit, cached);
    e.AddRequest(0, prompt);
    id := e.reqs[0].seqId;
    RunningIsAlive(e.reqs, e.waiting, e.running, 0);
    e.Abort(0);
    assert Tracked(PlacesOf(e), id);
  }

  // ---------------------------------------------------------------- whole runs

  datatype Event =
    | Add(r: ReqId, prompt: seq<Data>)
    | Prefills(r: ReqId, answer: Cache.Matched, window: Cache.Window, most: nat, sample: Token)
    | Decodes(most: nat)
    | Finished(r: ReqId, pinned: bool)
    | Aborted(r: ReqId)

  /** One event; what cannot happen in the present state does not. */
  method Handle(e: EngineState, event: Event)
    requires e.Valid()
    modifies e
    ensures e.Valid()
  {
    match event
    case Add(r, prompt) =>
      if r !in e.reqs {
        e.AddRequest(r, prompt);
      }
    case Prefills(r, answer, window, most, sample) =>
      if r in e.waiting && r in e.reqs && most > 0 && TotalLength(e.reqs[r].inputs) > 0
         && (e.cached ==> e.Answers(answer, TotalLength(e.reqs[r].inputs))) {
        e.PrefillStep(r, answer, window, most, sample);
      }
    case Decodes(most) =>
      var decoded, samples := e.DecodeStep(most);
    case Finished(r, pinned) =>
      if Ready(e.reqs, r) {
        e.Finish(r, pinned);
      }
    case Aborted(r) => e.Abort(r);
  }

  /** The state of the ids in an engine. */
  ghost function PlacesOf(e: EngineState): Places
    reads e
  {
    Places(e.available, e.idCount, e.books.states, e.holder, e.leaked, {})
  }

  /**
   After any run: every request is placed according to its state and has lost nothing, and no id
   is at once free and in use, or used twice.
   */
  method Run(limit: int, cached: bool, events: seq<Event>) returns (e: EngineState)
    ensures e.Valid() && NoDup(e.waiting) && NoDup(e.running) && NoDup(e.available)
    ensures forall r :: r in e.reqs ==>
              Placed(e.reqs[r], r in e.waiting, r in e.running) && Conserved(e.reqs[r])
    ensures forall r :: r in e.reqs ==> e.reqs[r].seqId !in e.available
    ensures forall r, r' :: r in e.reqs && r' in e.reqs && e.reqs[r].seqId == e.reqs[r'].seqId ==> r == r'
    ensures forall i :: i in e.books.states ==> i !in e.available
    ensures limit >= 0 ==> |e.books.lrus| <= limit
  {
    e := new EngineState(limit, cached);
    for i := 0 to |events|
      invariant e.Valid() && e.limit == limit
      invariant fresh(e)
    {
      Handle(e, events[i]);
    }
    IdsExclusive(PlacesOf(e), e.reqs);
    forall r | r in e.reqs ensures Queued(e.reqs, e.waiting, e.running, r) {
    }
  }
}
