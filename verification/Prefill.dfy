/**
 Prefill: cutting the inputs of a request into chunks, and starting a request from what the
 prefix cache already holds.
 */
module Prefill {
  import opened Lists
  import opened Tokens
  import opened PromptData
  import opened RequestState
  import opened RadixPages
  import Cache = PrefixCache

  // ---------------------------------------------------------------- chunking

  /** Takes at most `most` units off the front; an item that is no token list is taken whole or not at all. */
  method Chunk(inputs: seq<Data>, most: nat) returns (chunk: seq<Data>, rest: seq<Data>, length: nat)
    requires 0 < most <= TotalLength(inputs)
    ensures Flatten(chunk) + Flatten(rest) == Flatten(inputs)
    ensures length == TotalLength(chunk) <= most
    ensures AllTokens(inputs) ==> length == most && AllTokens(chunk) && AllTokens(rest)
    ensures length < most ==> rest != [] && rest[0].ImageData? && length + Length(rest[0]) > most
  {
    chunk, length := [], 0;
    assert inputs[..|inputs|] == inputs;
    for i := 0 to |inputs|
      invariant chunk == inputs[..i] && length == TotalLength(inputs[..i]) < most
    {
      var input := inputs[i];
      PrefixStep(inputs, i);
      assert inputs[..i + 1] == inputs[..i] + [input];
      chunk := chunk + [input];
      length := length + Length(input);
      if length == most {
        rest := inputs[i + 1..];
        CutHere(inputs, i + 1);
        return;
      }
      if length > most {
        chunk := inputs[..i];
        length := length - Length(input);
        if input.ImageData? {
          assert input in inputs;
          rest := inputs[i..];
          CutHere(inputs, i);
          return;
        }
        var n := most - length;
        SplitOff(inputs, i, n);
        chunk := chunk + [TokenData(input.ids[..n])];
        rest := [TokenData(input.ids[n..])] + inputs[i + 1..];
        length := most;
        return;
      }
    }
    assert false;
  }

  lemma CutHere(ds: seq<Data>, k: nat)
    requires k <= |ds|
    ensures Flatten(ds[..k]) + Flatten(ds[k..]) == Flatten(ds)
    ensures AllTokens(ds) ==> AllTokens(ds[..k]) && AllTokens(ds[k..])
  {
    assert ds == ds[..k] + ds[k..];
    FlattenConcat(ds[..k], ds[k..]);
  }

  lemma SplitOff(ds: seq<Data>, k: nat, n: nat)
    requires k < |ds| && ds[k].TokenData? && n <= |ds[k].ids|
    ensures var l, r := ds[..k] + [TokenData(ds[k].ids[..n])], [TokenData(ds[k].ids[n..])] + ds[k + 1..];
            && Flatten(l) + Flatten(r) == Flatten(ds)
            && TotalLength(l) == TotalLength(ds[..k]) + n
            && (AllTokens(ds) ==> AllTokens(l) && AllTokens(r))
  {
    var l, r := ds[..k] + [TokenData(ds[k].ids[..n])], [TokenData(ds[k].ids[n..])] + ds[k + 1..];
    JoinCut(ds[..k], ds[k].ids, n, ds[k + 1..]);
    Around(ds, k);
    FlattenConcat(l, r);
    FlattenConcat(ds[..k], [TokenData(ds[k].ids[..n])]);
    FlattenOne(TokenData(ds[k].ids[..n]));
  }

  /** The inputs of a request for the next prefill; a request without inputs feeds its newest tokens. */
  method ChunkPrefillInputData(m: RequestModelState, most: nat) returns (chunk: seq<Data>, length: nat)
    requires m.inputs == [] ==> 0 < m.numNext <= |m.committed|
    requires m.inputs != [] ==> 0 < most <= TotalLength(m.inputs)
    modifies m`inputs, m`numNext
    ensures length == TotalLength(chunk)
    ensures old(m.inputs) == [] ==>
              && chunk == [TokenData(m.committed[|m.committed| - old(m.numNext)..])]
              && m.numNext == 0 && m.inputs == []
    ensures old(m.inputs) != [] ==>
              && Flatten(chunk) + Flatten(m.inputs) == Flatten(old(m.inputs)) && length <= most
              && m.numNext == old(m.numNext)
              && (length < most ==> m.inputs != [] && m.inputs[0].ImageData? && length + Length(m.inputs[0]) > most)
    ensures old(m.inputs) != [] && AllTokens(old(m.inputs)) ==> length == most && AllTokens(m.inputs)
  {
    if m.inputs == [] {
      length := m.numNext;
      chunk := [TokenData(m.committed[|m.committed| - length..])];
      m.numNext := 0;
      FlattenOne(chunk[0]);
    } else {
      chunk, m.inputs, length := Chunk(m.inputs, most);
    }
  }

  /** Chunk after chunk, a token prompt is worked off completely, each position once and in order. */
  method PrefillByChunks(inputs: seq<Data>, most: nat) returns (chunks: seq<Data>)
    requires AllTokens(inputs) && most > 0
    ensures Flatten(chunks) == Flatten(inputs)
  {
    chunks := [];
    var rest := inputs;
    while TotalLength(rest) > 0
      invariant AllTokens(rest) && Flatten(chunks) + Flatten(rest) == Flatten(inputs)
      decreases TotalLength(rest)
    {
      var size := if TotalLength(rest) < most then TotalLength(rest) else most;
      var chunk, taken;
      chunk, rest, taken := Chunk(rest, size);
      FlattenConcat(chunks, chunk);
      ConcatAssoc(Flatten(chunks), Flatten(chunk), Flatten(rest));
      chunks := chunks + chunk;
    }
  }

  // ---------------------------------------------------------------- what is already computed

  lemma UnitsConcat(a: seq<Token>, b: seq<Token>)
    ensures Units(TokenData(a + b)) == Units(TokenData(a)) + Units(TokenData(b))
  {
  }

  lemma UnitsTake(a: seq<Token>, n: nat)
    requires n <= |a|
    ensures Units(TokenData(a[..n])) == Units(TokenData(a))[..n]
  {
  }

  /** The prompt as one token list, or nothing if it is not made of tokens only. */
  method GetConcatPrefillInputData(inputs: seq<Data>) returns (toks: seq<Token>)
    ensures AllTokens(inputs) ==> Units(TokenData(toks)) == Flatten(inputs)
    ensures !AllTokens(inputs) ==> toks == []
  {
    toks := [];
    for i := 0 to |inputs|
      invariant AllTokens(inputs[..i]) && Units(TokenData(toks)) == Flatten(inputs[..i])
    {
      var d := inputs[i];
      assert d in inputs && inputs[..i + 1] == inputs[..i] + [d];
      PrefixStep(inputs, i);
      if d.ImageData? {
        return [];
      }
      UnitsConcat(toks, d.ids);
      toks := toks + d.ids;
    }
    assert inputs[..|inputs|] == inputs;
  }

  /** Drops the first n positions of a token prompt. */
  method PopPrefillInputData(inputs: seq<Data>, n: nat) returns (rest: seq<Data>)
    requires AllTokens(inputs) && n < TotalLength(inputs)
    ensures AllTokens(rest) && Flatten(rest) == Flatten(inputs)[n..]
  {
    rest := inputs;
    var num := n;
    while Length(rest[0]) <= num
      invariant AllTokens(rest) && 0 <= num < TotalLength(rest)
      invariant Flatten(rest)[num..] == Flatten(inputs)[n..]
      decreases |rest|
    {
      DropItem(rest, num);
      num := num - Length(rest[0]);
      rest := rest[1..];
    }
    if num > 0 {
      var d := rest[0];
      assert d in rest;
      DropTokens(rest, num);
      rest := [TokenData(rest[0].ids[num..])] + rest[1..];
    }
  }

  lemma DropItem(ds: seq<Data>, n: nat)
    requires ds != [] && Length(ds[0]) <= n <= TotalLength(ds)
    ensures Flatten(ds)[n..] == Flatten(ds[1..])[n - Length(ds[0])..]
    ensures AllTokens(ds) ==> AllTokens(ds[1..])
  {
    DropMore(Units(ds[0]), Flatten(ds[1..]), n);
  }

  lemma DropTokens(ds: seq<Data>, n: nat)
    requires ds != [] && ds[0].TokenData? && n <= Length(ds[0])
    ensures Flatten([TokenData(ds[0].ids[n..])] + ds[1..]) == Flatten(ds)[n..]
  {
    CutTokens(ds[0].ids, n);
    FlattenConcat([TokenData(ds[0].ids[n..])], ds[1..]);
    DropConcat(Units(ds[0]), Flatten(ds[1..]), n);
  }

  // ---------------------------------------------------------------- KV caches

  type KvCache = map<SeqId, seq<Token>>

  /** The KV caches of all models, changed in step. */
  class Models {
    var kv: seq<KvCache>
    /** The sequences for which the sliding window was switched on. */
    var windowed: set<SeqId>

    method EnableSlidingWindowForSeq(id: SeqId)
      modifies this`windowed
      ensures windowed == old(windowed) + {id}
    {
      windowed := windowed + {id};
    }

    method AddNewSequence(id: SeqId)
      modifies this`kv
      ensures |kv| == |old(kv)| && forall i :: 0 <= i < |kv| ==> kv[i] == old(kv)[i][id := []]
    {
      for i := 0 to |kv|
        invariant |kv| == |old(kv)|
        invariant forall j :: 0 <= j < |kv| ==> kv[j] == if j < i then old(kv)[j][id := []] else old(kv)[j]
      {
        kv := kv[i := kv[i][id := []]];
      }
    }

    /** The child gets the first pos tokens of the parent. */
    method ForkSequence(parentId: SeqId, id: SeqId, pos: nat)
      requires forall i :: 0 <= i < |kv| ==> parentId in kv[i] && pos <= |kv[i][parentId]|
      modifies this`kv
      ensures |kv| == |old(kv)|
      ensures forall i :: 0 <= i < |kv| ==> kv[i] == old(kv)[i][id := old(kv)[i][parentId][..pos]]
    {
      for i := 0 to |kv|
        invariant |kv| == |old(kv)|
        invariant forall j :: 0 <= j < |kv| ==>
                    kv[j] == if j < i then old(kv)[j][id := old(kv)[j][parentId][..pos]] else old(kv)[j]
      {
        kv := kv[i := kv[i][id := kv[i][parentId][..pos]]];
      }
    }

    method PopN(id: SeqId, n: nat)
      requires forall i :: 0 <= i < |kv| ==> id in kv[i] && n <= |kv[i][id]|
      modifies this`kv
      ensures |kv| == |old(kv)|
      ensures forall i :: 0 <= i < |kv| ==> kv[i] == old(kv)[i][id := old(kv)[i][id][..|old(kv)[i][id]| - n]]
    {
      for i := 0 to |kv|
        invariant |kv| == |old(kv)|
        invariant forall j :: 0 <= j < |kv| ==>
                    kv[j] == if j < i then old(kv)[j][id := old(kv)[j][id][..|old(kv)[j][id]| - n]] else old(kv)[j]
      {
        kv := kv[i := kv[i][id := kv[i][id][..|kv[i][id]| - n]]];
      }
    }
  }

  /**
   A KV cache agrees with the prefix cache: it holds the kept sequences exactly, and the active
   ones at least as far as the prefix cache knows them.
   */
  ghost predicate Agrees(kv: KvCache, view: Cache.Contents, states: map<SeqId, Cache.SequenceState>) {
    forall id :: id in view && id in states ==>
      id in kv && view[id] <= kv[id] && (states[id] == Cache.Recycling ==> kv[id] == view[id])
  }

  ghost predicate Synced(kvs: seq<KvCache>, view: Cache.Contents, states: map<SeqId, Cache.SequenceState>) {
    forall i :: 0 <= i < |kvs| ==> Agrees(kvs[i], view, states)
  }

  ghost predicate Holds(kvs: seq<KvCache>, id: SeqId, toks: seq<Token>) {
    forall i :: 0 <= i < |kvs| ==> id in kvs[i] && kvs[i][id] == toks
  }

  function MatchedLength(r: Cache.Matched): nat {
    if r.NewSequence? then 0 else r.offset
  }

  ghost predicate Applicable(kv: KvCache, r: Cache.Matched) {
    && (r.Forked? ==> r.parentId in kv && r.offset <= |kv[r.parentId]|)
    && (r.Reused? ==> r.reusedId in kv && r.popped <= |kv[r.reusedId]|)
  }

  /** The KV cache after a new prompt was matched. */
  ghost function KvAfter(kv: KvCache, id: SeqId, r: Cache.Matched): KvCache
    requires Applicable(kv, r)
  {
    match r
    case NewSequence => kv[id := []]
    case Forked(p, offset) => kv[id := kv[p][..offset]]
    case Reused(q, _, popped) => kv[q := kv[q][..|kv[q]| - popped]]
  }

  /** The choice r can be applied to the KV cache, which then holds the matched part of the prompt. */
  ghost predicate Carried(kv: KvCache, view: Cache.Contents, b: Cache.Books, id: SeqId, toks: seq<Token>,
                          window: Cache.Window, r: Cache.Matched) {
    && Applicable(kv, r) && MatchedLength(r) <= |toks| && (r.Reused? ==> r.reusedId in b.lrus)
    && var a, view' := Cache.ActiveId(id, r), Cache.Inserted(view, id, toks, r);
    && a in view' && a in KvAfter(kv, id, r) && KvAfter(kv, id, r)[a] == view'[a]
    && view'[a] == toks[..MatchedLength(r)]
    && Agrees(KvAfter(kv, id, r), view', Cache.BooksAfter(b, id, window, r).states)
  }

  /** Whatever the cache chooses, the KV cache then holds exactly the matched part of the prompt. */
  lemma MatchCarriesOver(kv: KvCache, view: Cache.Contents, b: Cache.Books, limit: int, id: SeqId, toks: seq<Token>,
                         window: Cache.Window, r: Cache.Matched)
    requires Agrees(kv, view, b.states) && Cache.Consistent(b, limit) && view.Keys == b.states.Keys
    requires Cache.Chosen(view, b.states, b.windows, toks, window, r) && id !in view
    ensures Carried(kv, view, b, id, toks, window, r)
  {
    match r
    case NewSequence =>
    case Forked(p, offset) =>
      Cache.MatchedPart(view, toks, offset, p);
      assert kv[p][..offset] == view[p][..offset];
    case Reused(q, offset, popped) =>
      assert Cache.Entered(b, q);
      Cache.MatchedPart(view, toks, offset, q);
  }

  ghost predicate AfterAll(kvs: seq<KvCache>, kvs': seq<KvCache>, id: SeqId, r: Cache.Matched) {
    && |kvs'| == |kvs|
    && forall i :: 0 <= i < |kvs| ==> Applicable(kvs[i], r) && kvs'[i] == KvAfter(kvs[i], id, r)
  }

  lemma AllCarryOver(kvs: seq<KvCache>, view: Cache.Contents, b: Cache.Books, limit: int, id: SeqId,
                     toks: seq<Token>, window: Cache.Window, r: Cache.Matched)
    requires Synced(kvs, view, b.states) && Cache.Consistent(b, limit) && view.Keys == b.states.Keys
    requires Cache.Chosen(view, b.states, b.windows, toks, window, r) && id !in view
    ensures MatchedLength(r) <= |toks| && (r.Reused? ==> r.reusedId in b.lrus)
    ensures forall i :: 0 <= i < |kvs| ==> Applicable(kvs[i], r)
    ensures forall kvs' :: AfterAll(kvs, kvs', id, r) ==>
              && Synced(kvs', Cache.Inserted(view, id, toks, r), Cache.BooksAfter(b, id, window, r).states)
              && Holds(kvs', Cache.ActiveId(id, r), toks[..MatchedLength(r)])
  {
    if r.Reused? {
      assert Cache.Entered(b, r.reusedId);
    }
    forall i | 0 <= i < |kvs| ensures Carried(kvs[i], view, b, id, toks, window, r) {
      MatchCarriesOver(kvs[i], view, b, limit, id, toks, window, r);
    }
  }

  // ---------------------------------------------------------------- starting a request

  /** A request entry: its status, its sequence id, and for each model the inputs still to be processed. */
  class RequestEntry {
    var isPending: bool
    var internalId: SeqId
    var inputs: seq<seq<Data>>
  }

  /** Every model still has the token prompt `prompt` to process. */
  ghost predicate Remaining(inputs: seq<seq<Data>>, prompt: seq<Unit>) {
    forall i :: 0 <= i < |inputs| ==> AllTokens(inputs[i]) && Flatten(inputs[i]) == prompt
  }

  method ApplyToModels(models: Models, id: SeqId, r: Cache.Matched)
    requires forall i :: 0 <= i < |models.kv| ==> Applicable(models.kv[i], r)
    modifies models
    ensures AfterAll(old(models.kv), models.kv, id, r)
    ensures models.windowed == if r.Reused? then old(models.windowed) else old(models.windowed) + {id}
  {
    match r
    case NewSequence =>
      models.AddNewSequence(id);
      models.EnableSlidingWindowForSeq(id);
    case Forked(p, offset) =>
      models.ForkSequence(p, id, offset);
      models.EnableSlidingWindowForSeq(id);
    case Reused(q, _, popped) =>
      if popped > 0 {
        models.PopN(q, popped);
      } else {
        forall i | 0 <= i < |models.kv| ensures models.kv[i] == KvAfter(models.kv[i], id, r) {
          Cache.DropNothing(models.kv[i], q);
        }
      }
  }

  method PopAll(inputs: seq<seq<Data>>, offset: nat, ghost prompt: seq<Unit>) returns (rest: seq<seq<Data>>)
    requires Remaining(inputs, prompt) && offset < |prompt|
    ensures |rest| == |inputs| && Remaining(rest, prompt[offset..])
  {
    rest := [];
    for i := 0 to |inputs|
      invariant |rest| == i && Remaining(rest, prompt[offset..])
    {
      var r := PopPrefillInputData(inputs[i], offset);
      rest := rest + [r];
    }
  }

  /** The request has not started, is not in the cache yet and has a prompt made of tokens. */
  ghost predicate Matchable(cache: Cache.PrefixCache, entry: RequestEntry)
    reads cache, entry
  {
    && entry.isPending && entry.internalId !in cache.books.states
    && entry.inputs != [] && AllTokens(entry.inputs[0]) && Flatten(entry.inputs[0]) != []
  }

  /** The KV caches hold the first `offset` positions of the prompt, which are not all of it. */
  ghost predicate HoldsPrefix(kvs: seq<KvCache>, id: SeqId, prompt: seq<Unit>, offset: nat) {
    offset < |prompt| && exists known :: Units(TokenData(known)) == prompt[..offset] && Holds(kvs, id, known)
  }

  lemma HoldsTokens(kvs: seq<KvCache>, id: SeqId, toks: seq<Token>, offset: nat)
    requires offset < |toks| && Holds(kvs, id, toks[..offset])
    ensures HoldsPrefix(kvs, id, Units(TokenData(toks)), offset)
  {
    UnitsTake(toks, offset);
  }

  /** The answer of the prefix cache to the prompt decides how much is matched and which id goes on. */
  ghost predicate Answered(view: Cache.Contents, b: Cache.Books, prompt: seq<Unit>, window: Cache.Window,
                           id: SeqId, id': SeqId, offset: nat) {
    exists toks, r ::
      && toks != [] && Units(TokenData(toks)) == prompt
      && Cache.Chosen(view, b.states, b.windows, toks[..|toks| - 1], window, r)
      && offset == MatchedLength(r) && id' == Cache.ActiveId(id, r)
  }

  /**
   Starts a request: as much of its prompt as possible is taken from the prefix cache, and the
   models' KV caches, the remaining inputs and the id follow. An id that is no longer needed is
   given back.
   */
  method MatchPrefixCache(cache: Cache.PrefixCache, models: Models, entry: RequestEntry, window: Cache.Window,
                          enabled: bool, most: nat, ghost prompt: seq<Unit>)
    returns (offset: nat, back: seq<SeqId>, most': nat)
    requires cache.Valid() && window.size != 0 && entry.inputs != []
    requires AllTokens(entry.inputs[0]) ==> Remaining(entry.inputs, prompt)
    requires Synced(models.kv, cache.View(), cache.books.states)
    modifies cache`books, cache`pending, cache.tree, models, entry
    ensures cache.Valid() && Synced(models.kv, cache.View(), cache.books.states) && |models.kv| == |old(models.kv)|
    ensures !enabled || !old(Matchable(cache, entry)) ==>
              offset == 0 && back == [] && most' == most && unchanged(cache, cache.tree, models, entry)
    ensures enabled && old(Matchable(cache, entry)) ==>
              && offset < |prompt| && most' == (if most < |prompt| - offset then most else |prompt| - offset)
              && |entry.inputs| == |old(entry.inputs)| && Remaining(entry.inputs, prompt[offset..])
              && HoldsPrefix(models.kv, entry.internalId, prompt, offset)
              && entry.internalId in cache.books.states && cache.books.states[entry.internalId] == Cache.Active
              && back == (if entry.internalId == old(entry.internalId) then [] else [old(entry.internalId)])
              && Answered(old(cache.View()), old(cache.books), prompt, window, old(entry.internalId),
                          entry.internalId, offset)
              && models.windowed
                 == old(models.windowed) + (if back == [] then {entry.internalId} else {})
  {
    offset, back, most' := 0, [], most;
    if !enabled || !entry.isPending || entry.internalId in cache.books.states {
      return;
    }
    var toks := GetConcatPrefillInputData(entry.inputs[0]);
    if toks != [] {
      offset, back, most' := MatchTokens(cache, models, entry, toks, window, most, prompt);
    }
  }

  /** The same once the prompt is known to be made of tokens. */
  method MatchTokens(cache: Cache.PrefixCache, models: Models, entry: RequestEntry, toks: seq<Token>,
                     window: Cache.Window, most: nat, ghost prompt: seq<Unit>)
    returns (offset: nat, back: seq<SeqId>, most': nat)
    requires cache.Valid() && window.size != 0 && entry.inputs != [] && entry.internalId !in cache.books.states
    requires toks != [] && Units(TokenData(toks)) == prompt && Remaining(entry.inputs, prompt)
    requires Synced(models.kv, cache.View(), cache.books.states)
    modifies cache`books, cache`pending, cache.tree, models, entry
    ensures cache.Valid() && Synced(models.kv, cache.View(), cache.books.states) && |models.kv| == |old(models.kv)|
    ensures HoldsPrefix(models.kv, entry.internalId, prompt, offset)
    ensures most' == (if most < |prompt| - offset then most else |prompt| - offset)
    ensures |entry.inputs| == |old(entry.inputs)| && Remaining(entry.inputs, prompt[offset..])
    ensures entry.internalId in cache.books.states && cache.books.states[entry.internalId] == Cache.Active
    ensures back == (if entry.internalId == old(entry.internalId) then [] else [old(entry.internalId)])
    ensures Answered(old(cache.View()), old(cache.books), prompt, window, old(entry.internalId),
                     entry.internalId, offset)
    ensures models.windowed == old(models.windowed) + (if back == [] then {entry.internalId} else {})
  {
    offset, back := StartMatched(cache, models, entry, toks, window, prompt);
    PopMatched(entry, offset, prompt);
    var left := TotalLength(entry.inputs[0]);
    most' := if most < left then most else left;
  }

  /** The matched part of the prompt leaves the inputs of every model. */
  method PopMatched(entry: RequestEntry, offset: nat, ghost prompt: seq<Unit>)
    requires Remaining(entry.inputs, prompt) && offset < |prompt|
    modifies entry`inputs
    ensures |entry.inputs| == |old(entry.inputs)| && Remaining(entry.inputs, prompt[offset..])
  {
    if offset > 0 {
      var rest := PopAll(entry.inputs, offset, prompt);
      entry.inputs := rest;
    } else {
      assert prompt[0..] == prompt;
    }
  }

  /** The cache answers, the KV caches follow, and the request takes over another id if need be. */
  method StartMatched(cache: Cache.PrefixCache, models: Models, entry: RequestEntry, toks: seq<Token>,
                      window: Cache.Window, ghost prompt: seq<Unit>) returns (offset: nat, back: seq<SeqId>)
    requires cache.Valid() && window.size != 0 && entry.internalId !in cache.books.states
    requires toks != [] && Units(TokenData(toks)) == prompt
    requires Synced(models.kv, cache.View(), cache.books.states)
    modifies cache`books, cache`pending, cache.tree, models, entry`internalId
    ensures cache.Valid() && Synced(models.kv, cache.View(), cache.books.states) && |models.kv| == |old(models.kv)|
    ensures HoldsPrefix(models.kv, entry.internalId, prompt, offset)
    ensures entry.internalId in cache.books.states && cache.books.states[entry.internalId] == Cache.Active
    ensures back == if entry.internalId == old(entry.internalId) then [] else [old(entry.internalId)]
    ensures models.windowed == old(models.windowed) + (if back == [] then {entry.internalId} else {})
    ensures Answered(old(cache.View()), old(cache.books), prompt, window,
                     old(entry.internalId), entry.internalId, offset)
  {
    var id := entry.internalId;
    var r := MatchModels(cache, models, id, toks, window);
    offset, back := MatchedLength(r), [];
    HoldsTokens(models.kv, Cache.ActiveId(id, r), toks, offset);
    if r.Reused? {
      back := [id];
      entry.internalId := r.reusedId;
    }
  }

  /** Looks the prompt up in the prefix cache and prepares the models' KV caches accordingly. */
  method MatchModels(cache: Cache.PrefixCache, models: Models, id: SeqId, toks: seq<Token>, window: Cache.Window)
    returns (r: Cache.Matched)
    requires cache.Valid() && window.size != 0 && toks != [] && id !in cache.books.states
    requires Synced(models.kv, cache.View(), cache.books.states)
    modifies cache`books, cache`pending, cache.tree, models
    ensures cache.Valid() && |models.kv| == |old(models.kv)|
    ensures Synced(models.kv, cache.View(), cache.books.states)
    ensures MatchedLength(r) < |toks|
    ensures var a := Cache.ActiveId(id, r);
            && a in cache.books.states && cache.books.states[a] == Cache.Active
            && (r.Reused? ==> a != id)
            && models.windowed == (if r.Reused? then old(models.windowed) else old(models.windowed) + {id})
            && Holds(models.kv, a, toks[..MatchedLength(r)])
    ensures Cache.Chosen(old(cache.View()), old(cache.books).states, old(cache.books).windows,
                         toks[..|toks| - 1], window, r)
  {
    ghost var view, books := cache.View(), cache.books;
    r := cache.InsertSequence(id, toks, window);
    ghost var known := toks[..|toks| - 1];
    AllCarryOver(models.kv, view, books, cache.maxRecycling, id, known, window, r);
    TakeFewer(toks, |toks| - 1, MatchedLength(r));
    ApplyToModels(models, id, r);
  }
}
