/**
 The prefix cache: sequences that are active or kept for reuse, over the radix tree. Extensions
 are queued and reach the tree later; every contract speaks about the contents with the queue
 applied, that is, about a cache that extends at once.
 */
module PrefixCache {
  import opened Lists
  import opened Tokens
  import opened RadixPages
  import opened RadixTree

  datatype SequenceState = Active | Recycling

  datatype Window = Window(size: int, sink: nat)

  /** How a new prompt starts: from nothing, from a copy, or by taking over a finished sequence. */
  datatype Matched =
    | NewSequence
    | Forked(parentId: SeqId, offset: nat)
    | Reused(reusedId: SeqId, offset: nat, popped: nat)

  type Contents = map<SeqId, seq<Token>>
  type Pending = seq<(SeqId, seq<Token>)>

  // ---------------------------------------------------------------- queued extensions

  ghost function Extended(m: Contents, e: (SeqId, seq<Token>)): Contents {
    if e.0 in m then m[e.0 := m[e.0] + e.1] else m
  }

  ghost function Flushed(m: Contents, pending: Pending): (r: Contents)
    ensures r.Keys == m.Keys
  {
    if pending == [] then m else Flushed(Extended(m, pending[0]), pending[1..])
  }

  lemma FlushedNothing(m: Contents)
    ensures Flushed(m, []) == m
  {
  }

  lemma {:induction false} FlushedLast(m: Contents, pending: Pending, e: (SeqId, seq<Token>))
    ensures Flushed(m, pending + [e]) == Extended(Flushed(m, pending), e)
  {
    if pending == [] {
      assert pending + [e] == [e];
      assert Flushed(Extended(m, e), []) == Extended(m, e);
    } else {
      assert (pending + [e])[1..] == pending[1..] + [e];
      FlushedLast(Extended(m, pending[0]), pending[1..], e);
    }
  }

  /** Removing a sequence without queued extensions commutes with the queue. */
  lemma {:induction false} FlushedRemove(m: Contents, pending: Pending, id: SeqId)
    requires forall i :: 0 <= i < |pending| ==> pending[i].0 != id
    ensures Flushed(m - {id}, pending) == Flushed(m, pending) - {id}
  {
    if pending != [] {
      assert Extended(m - {id}, pending[0]) == Extended(m, pending[0]) - {id};
      FlushedRemove(Extended(m, pending[0]), pending[1..], id);
    }
  }

  // ---------------------------------------------------------------- least recently used maps

  predicate Stamped(lru: map<SeqId, nat>, back: map<nat, SeqId>, id: SeqId) {
    id in lru ==> lru[id] in back && back[lru[id]] == id
  }

  predicate StampOf(lru: map<SeqId, nat>, back: map<nat, SeqId>, k: nat) {
    k in back ==> back[k] in lru && lru[back[k]] == k
  }

  /** The two maps undo each other. */
  ghost predicate Inverse(lru: map<SeqId, nat>, back: map<nat, SeqId>) {
    && (forall id {:trigger Stamped(lru, back, id)} :: Stamped(lru, back, id))
    && (forall k {:trigger StampOf(lru, back, k)} :: StampOf(lru, back, k))
  }

  lemma InverseAdd(lru: map<SeqId, nat>, back: map<nat, SeqId>, id: SeqId, k: nat)
    requires Inverse(lru, back) && id !in lru && k !in back
    ensures Inverse(lru[id := k], back[k := id]) && |lru[id := k]| == |lru| + 1
  {
    var lru', back' := lru[id := k], back[k := id];
    assert lru'.Keys == lru.Keys + {id};
    forall x ensures Stamped(lru', back', x) {
      assert Stamped(lru, back, x);
    }
    forall x ensures StampOf(lru', back', x) {
      assert StampOf(lru, back, x);
    }
  }

  lemma InverseRemove(lru: map<SeqId, nat>, back: map<nat, SeqId>, id: SeqId)
    requires Inverse(lru, back) && id in lru
    ensures Inverse(lru - {id}, back - {lru[id]}) && |lru - {id}| == |lru| - 1
  {
    var lru', back' := lru - {id}, back - {lru[id]};
    assert Stamped(lru, back, id);
    assert lru'.Keys == lru.Keys - {id};
    forall x ensures Stamped(lru', back', x) {
      assert Stamped(lru, back, x);
    }
    forall x ensures StampOf(lru', back', x) {
      assert StampOf(lru, back, x);
    }
  }

  // ---------------------------------------------------------------- the decision on a new prompt

  /** id shares the longest possible prefix with toks. */
  ghost predicate Best(m: Contents, toks: seq<Token>, offset: nat, id: SeqId) {
    id in m && Lcp(toks, m[id]) == offset
  }

  /** id is kept for reuse under the same window and shares the longest possible prefix. */
  ghost predicate Reusable(m: Contents, states: map<SeqId, SequenceState>, windows: map<SeqId, Window>,
                           toks: seq<Token>, offset: nat, window: Window, id: SeqId) {
    && Best(m, toks, offset, id)
    && id in states && states[id] == Recycling && id in windows && windows[id] == window
  }

  /** Reuse may drop less than a tenth of the finished sequence. */
  predicate NearlyAll(offset: nat, length: nat) {
    offset as real > length as real * 0.9
  }

  /** No stored sequence shares a prefix, or none of those that share the longest one may be used. */
  ghost predicate NothingToStartFrom(m: Contents, states: map<SeqId, SequenceState>, windows: map<SeqId, Window>,
                                     toks: seq<Token>, window: Window, offset: nat) {
    && (forall id :: id in m ==> Lcp(toks, m[id]) <= offset)
    && (offset > 0 ==> exists id :: Best(m, toks, offset, id))
    && (offset > 0 && window.size == -1 ==>
          forall id :: Best(m, toks, offset, id) ==> id in windows && windows[id].size != -1)
    && (offset > 0 && window.size != -1 ==>
          forall id :: Reusable(m, states, windows, toks, offset, window, id) ==> |m[id]| != offset)
  }

  /** The choice of the cache, in terms of the contents alone. `toks` is the prompt without its last token. */
  ghost predicate Chosen(m: Contents, states: map<SeqId, SequenceState>, windows: map<SeqId, Window>,
                         toks: seq<Token>, window: Window, r: Matched) {
    match r
    case NewSequence => exists offset: nat :: NothingToStartFrom(m, states, windows, toks, window, offset)
    case Forked(parentId, offset) =>
      && 0 < offset <= |toks| && window.size == -1
      && (forall id :: id in m ==> Lcp(toks, m[id]) <= offset)
      && Best(m, toks, offset, parentId) && parentId in windows && windows[parentId].size == -1
      && forall id :: Reusable(m, states, windows, toks, offset, window, id) ==>
           !NearlyAll(offset, |m[id]|)
    case Reused(id, offset, popped) =>
      && 0 < offset <= |toks|
      && (forall other :: other in m ==> Lcp(toks, m[other]) <= offset)
      && Reusable(m, states, windows, toks, offset, window, id)
      && |m[id]| == offset + popped
      && if window.size != -1 then popped == 0
         else NearlyAll(offset, |m[id]|)
              && forall other :: Reusable(m, states, windows, toks, offset, window, other) ==> |m[id]| <= |m[other]|
  }

  /** The contents after the choice. */
  ghost function Inserted(m: Contents, id: SeqId, toks: seq<Token>, r: Matched): Contents
    requires r.Forked? || r.Reused? ==> r.offset <= |toks|
  {
    match r
    case NewSequence => m[id := []]
    case Forked(_, offset) => m[id := toks[..offset]]
    case Reused(reusedId, offset, _) => m[reusedId := toks[..offset]]
  }

  function ActiveId(id: SeqId, r: Matched): SeqId {
    if r.Reused? then r.reusedId else id
  }

  // ---------------------------------------------------------------- bookkeeping of the states

  /** The tables beside the tree. */
  datatype Books = Books(
    states: map<SeqId, SequenceState>, windows: map<SeqId, Window>,
    lrus: map<SeqId, nat>, seqOfLru: map<nat, SeqId>, counter: nat)

  /** The recycling sequences are the stamped ones, and every sequence has its window. */
  predicate Entered(b: Books, id: SeqId) {
    && (id in b.lrus <==> id in b.states && b.states[id] == Recycling)
    && (id in b.states <==> id in b.windows)
  }

  predicate Counted(b: Books, k: nat) {
    k in b.seqOfLru ==> k <= b.counter
  }

  ghost predicate Consistent(b: Books, limit: int) {
    && Inverse(b.lrus, b.seqOfLru) && (limit >= 0 ==> |b.lrus| <= limit)
    && (forall id {:trigger Entered(b, id)} :: Entered(b, id))
    && (forall k {:trigger Counted(b, k)} :: Counted(b, k))
  }

  /** Tables that change at one sequence only, and gain no stamp beyond the counter. */
  lemma ConsistentAt(b: Books, b': Books, limit: int, id: SeqId)
    requires Consistent(b, limit) && Inverse(b'.lrus, b'.seqOfLru) && (limit >= 0 ==> |b'.lrus| <= limit)
    requires Entered(b', id) && forall x :: x != id ==>
               && (x in b'.lrus <==> x in b.lrus) && (x in b'.windows <==> x in b.windows)
               && (x in b'.states <==> x in b.states) && (x in b.states ==> b'.states[x] == b.states[x])
    requires b.counter <= b'.counter && forall k :: k in b'.seqOfLru ==> k in b.seqOfLru || k <= b'.counter
    ensures Consistent(b', limit)
  {
    forall x ensures Entered(b', x) {
      assert Entered(b, x);
    }
    forall k ensures Counted(b', k) {
      assert Counted(b, k);
    }
  }

  function Forget(b: Books, id: SeqId): Books {
    b.(states := b.states - {id}, windows := b.windows - {id}, lrus := b.lrus - {id},
       seqOfLru := if id in b.lrus then b.seqOfLru - {b.lrus[id]} else b.seqOfLru)
  }

  lemma ForgetKept(b: Books, limit: int, id: SeqId)
    requires Consistent(b, limit) && id in b.lrus
    ensures Consistent(Forget(b, id), limit) && |Forget(b, id).lrus| == |b.lrus| - 1
  {
    InverseRemove(b.lrus, b.seqOfLru, id);
    ConsistentAt(b, Forget(b, id), limit, id);
  }

  lemma ForgetActive(b: Books, limit: int, id: SeqId)
    requires Consistent(b, limit) && id !in b.lrus
    ensures Consistent(Forget(b, id), limit) && Forget(b, id).lrus == b.lrus
  {
    RemoveAbsent(b.lrus, id);
    ConsistentAt(b, Forget(b, id), limit, id);
  }

  lemma ForgetAny(b: Books, limit: int, id: SeqId)
    requires Consistent(b, limit)
    ensures Consistent(Forget(b, id), limit)
  {
    if id in b.lrus {
      ForgetKept(b, limit, id);
    } else {
      ForgetActive(b, limit, id);
    }
  }

  function Keep(b: Books, id: SeqId): Books {
    var k := b.counter + 1;
    b.(states := b.states[id := Recycling], lrus := b.lrus[id := k], seqOfLru := b.seqOfLru[k := id], counter := k)
  }

  lemma KeepKeeps(b: Books, limit: int, id: SeqId)
    requires Consistent(b, limit) && id in b.states && b.states[id] == Active && (limit < 0 || |b.lrus| < limit)
    ensures Consistent(Keep(b, id), limit)
  {
    var b' := Keep(b, id);
    assert Entered(b, id) && Counted(b, b'.counter);
    InverseAdd(b.lrus, b.seqOfLru, id, b'.counter);
    assert Entered(b', id);
    ConsistentAt(b, b', limit, id);
  }

  function Activate(b: Books, id: SeqId): Books {
    b.(states := b.states[id := Active], lrus := b.lrus - {id},
       seqOfLru := if id in b.lrus then b.seqOfLru - {b.lrus[id]} else b.seqOfLru)
  }

  lemma ActivateKeeps(b: Books, limit: int, id: SeqId)
    requires Consistent(b, limit) && id in b.lrus
    ensures Consistent(Activate(b, id), limit)
  {
    assert Entered(b, id);
    InverseRemove(b.lrus, b.seqOfLru, id);
    ConsistentAt(b, Activate(b, id), limit, id);
  }

  function Enter(b: Books, id: SeqId, window: Window): Books {
    b.(states := b.states[id := Active], windows := b.windows[id := window])
  }

  lemma EnterKeeps(b: Books, limit: int, id: SeqId, window: Window)
    requires Consistent(b, limit) && id !in b.states
    ensures Consistent(Enter(b, id, window), limit)
  {
    assert Entered(b, id);
    ConsistentAt(b, Enter(b, id, window), limit, id);
  }

  // ---------------------------------------------------------------- a cache that extends at once

  /** The eager cache is nothing but its contents and its tables. */
  datatype Eager = Eager(contents: Contents, books: Books)

  datatype Event =
    | Extend(id: SeqId, toks: seq<Token>)
    | Commit
    | RollBack(id: SeqId, n: nat)
    | Free
    | Recycle(id: SeqId, keep: bool)
    | Insert(id: SeqId, tokens: seq<Token>, window: Window)

  /** What the caller gets to see: the ids removed through the callback, or the answer to a prompt. */
  datatype Outcome = Refused | Quiet | Removed(ids: seq<SeqId>) | Answered(r: Matched)

  predicate IsActive(e: Eager, id: SeqId) {
    id in e.books.states && e.books.states[id] == Active
  }

  /** The calls that the cache accepts, and that its callers make: a kept sequence is not extended. */
  ghost predicate Callable(e: Eager, event: Event) {
    match event
    case Extend(id, _) => id in e.books.states ==> IsActive(e, id)
    case Commit => true
    case RollBack(id, n) => IsActive(e, id) && id in e.contents && 0 < n <= |e.contents[id]|
    case Free => true
    case Recycle(id, _) => IsActive(e, id)
    case Insert(id, tokens, window) => id !in e.books.states && tokens != [] && window.size != 0
  }

  /** The eager cache without one of its sequences. */
  function Dropped(e: Eager, id: SeqId): Eager {
    Eager(e.contents - {id}, Forget(e.books, id))
  }

  /** Exactly one of the kept sequences is dropped. */
  ghost predicate DropsOne(e: Eager, ids: seq<SeqId>, e': Eager) {
    |ids| == 1 && ids[0] in e.books.lrus && e' == Dropped(e, ids[0])
  }

  ghost predicate Frees(e: Eager, ids: seq<SeqId>, e': Eager) {
    if exists id :: id in e.books.lrus then DropsOne(e, ids, e') else ids == [] && e' == e
  }

  function Kept(e: Eager, id: SeqId): Eager {
    e.(books := Keep(e.books, id))
  }

  ghost predicate Recycles(limit: int, e: Eager, id: SeqId, keep: bool, ids: seq<SeqId>, e': Eager) {
    if !keep || limit == 0 then ids == [id] && e' == Dropped(e, id)
    else if |e.books.lrus| != limit then ids == [] && e' == Kept(e, id)
    else |ids| == 1 && ids[0] in e.books.lrus && e' == Kept(Dropped(e, ids[0]), id)
  }

  ghost predicate Inserts(e: Eager, id: SeqId, tokens: seq<Token>, window: Window, r: Matched, e': Eager)
    requires tokens != []
  {
    var toks := tokens[..|tokens| - 1];
    && Chosen(e.contents, e.books.states, e.books.windows, toks, window, r)
    && e' == Eager(Inserted(e.contents, id, toks, r), BooksAfter(e.books, id, window, r))
  }

  ghost predicate RollsBack(e: Eager, id: SeqId, n: nat, e': Eager)
    requires id in e.contents && n <= |e.contents[id]|
  {
    e' == e.(contents := e.contents[id := e.contents[id][..|e.contents[id]| - n]])
  }

  /** One step of the eager cache; where the cache may choose, every choice is a step. */
  ghost predicate EagerStep(limit: int, e: Eager, event: Event, out: Outcome, e': Eager) {
    if !Callable(e, event) then out == Refused && e' == e
    else match event
      case Extend(id, toks) => out == Quiet && e' == e.(contents := Extended(e.contents, (id, toks)))
      case Commit => out == Quiet && e' == e
      case RollBack(id, n) => out == Quiet && RollsBack(e, id, n, e')
      case Free => out.Removed? && Frees(e, out.ids, e')
      case Recycle(id, keep) => out.Removed? && Recycles(limit, e, id, keep, out.ids, e')
      case Insert(id, tokens, window) => out.Answered? && Inserts(e, id, tokens, window, out.r, e')
  }

  // ---------------------------------------------------------------- what a step means

  /** What two tables say about a sequence is the same. */
  predicate SameEntry(b: Books, b': Books, x: SeqId) {
    && (x in b.states <==> x in b'.states) && (x in b.states && x in b'.states ==> b.states[x] == b'.states[x])
    && (x in b.windows <==> x in b'.windows) && (x in b.windows && x in b'.windows ==> b.windows[x] == b'.windows[x])
  }

  /** Reuse without a window loses less than a tenth of the sequence. */
  lemma NearlyAllIff(offset: nat, length: nat)
    requires offset <= length
    ensures NearlyAll(offset, length) <==> 10 * (length - offset) < length
  {
  }

  /** The sequence a prompt goes on with is active under the window of the prompt, and holds what was matched. */
  lemma InsertEffect(limit: int, e: Eager, id: SeqId, tokens: seq<Token>, window: Window, r: Matched, e': Eager)
    requires Consistent(e.books, limit) && tokens != [] && id !in e.books.states
    requires Inserts(e, id, tokens, window, r, e')
    ensures var a, offset := (if r.Reused? then r.reusedId else id), (if r.NewSequence? then 0 else r.offset);
            && a in e'.books.states && e'.books.states[a] == Active && a !in e'.books.lrus
            && a in e'.books.windows && e'.books.windows[a] == window
            && (forall x {:trigger SameEntry(e.books, e'.books, x)} :: x != a ==> SameEntry(e.books, e'.books, x))
            && offset < |tokens| && e'.contents == e.contents[a := tokens[..offset]]
            && (r.Reused? && window.size == -1 ==>
                  r.reusedId in e.contents && 10 * r.popped < |e.contents[r.reusedId]|)
  {
    var toks := tokens[..|tokens| - 1];
    assert Entered(e.books, id);
    match r
    case NewSequence =>
    case Forked(_, offset) => TakeFewer(tokens, |tokens| - 1, offset);
    case Reused(q, offset, popped) =>
      assert Entered(e.books, q);
      TakeFewer(tokens, |tokens| - 1, offset);
      if window.size == -1 {
        NearlyAllIff(offset, |e.contents[q]|);
      }
  }

  /** The sequences in `ids` are gone, and all others but id keep contents, state and window. */
  ghost predicate OthersStay(e: Eager, id: SeqId, ids: seq<SeqId>, e': Eager) {
    && (forall x :: x in ids ==> x !in e'.books.states && x !in e'.books.windows && x !in e'.contents)
    && (forall x {:trigger SameEntry(e.books, e'.books, x)} :: x != id && x !in ids ==> SameEntry(e.books, e'.books, x))
    && (forall x :: x !in ids ==>
          (x in e'.contents <==> x in e.contents) && (x in e.contents ==> e'.contents[x] == e.contents[x]))
  }

  /** The sequence is kept under its window, with the newest stamp. */
  ghost predicate IsKept(b: Books, id: SeqId, b': Books) {
    && id in b'.states && b'.states[id] == Recycling
    && id in b.windows && id in b'.windows && b'.windows[id] == b.windows[id]
    && id in b'.lrus && forall x :: x in b'.lrus && x != id ==> b'.lrus[x] < b'.lrus[id]
  }

  /** The recycled sequence is kept under its window with the newest stamp, or gone; only removed sequences go. */
  lemma RecycleEffect(limit: int, e: Eager, id: SeqId, keep: bool, ids: seq<SeqId>, e': Eager)
    requires Consistent(e.books, limit) && IsActive(e, id) && Recycles(limit, e, id, keep, ids, e')
    ensures OthersStay(e, id, ids, e') && (id in ids <==> !keep || limit == 0)
    ensures id !in ids ==> IsKept(e.books, id, e'.books)
  {
    if !keep || limit == 0 {
      ForgetEffect(e.books, id);
    } else if |e.books.lrus| == limit {
      RecycleEvicts(limit, e, id, ids, e');
    } else {
      KeepEffect(e.books, limit, id);
    }
  }

  lemma RecycleEvicts(limit: int, e: Eager, id: SeqId, ids: seq<SeqId>, e': Eager)
    requires Consistent(e.books, limit) && IsActive(e, id)
    requires |ids| == 1 && ids[0] in e.books.lrus && e' == Kept(Dropped(e, ids[0]), id)
    ensures OthersStay(e, id, ids, e') && id !in ids && IsKept(e.books, id, e'.books)
  {
    var gone := ids[0];
    assert Entered(e.books, id) && Entered(e.books, gone);
    EvictsBooks(limit, e.books, gone, id);
    assert forall x :: x in ids <==> x == gone;
  }

  lemma EvictsBooks(limit: int, b: Books, gone: SeqId, id: SeqId)
    requires Consistent(b, limit) && gone != id && id in b.states
    ensures var b' := Keep(Forget(b, gone), id);
            && gone !in b'.states && gone !in b'.windows && IsKept(b, id, b')
            && forall x {:trigger SameEntry(b, b', x)} :: x != id && x != gone ==> SameEntry(b, b', x)
  {
    var mid := Forget(b, gone);
    ForgetEffect(b, gone);
    ForgetAny(b, limit, gone);
    KeepEffect(mid, limit, id);
    TwoEntries(b, mid, Keep(mid, id), gone, id);
  }

  /** A change at one sequence, then at another. */
  lemma TwoEntries(b: Books, mid: Books, b': Books, gone: SeqId, id: SeqId)
    requires gone != id && gone !in mid.states && gone !in mid.windows && IsKept(mid, id, b')
    requires forall x {:trigger SameEntry(b, mid, x)} :: x != gone ==> SameEntry(b, mid, x)
    requires forall x {:trigger SameEntry(mid, b', x)} :: x != id ==> SameEntry(mid, b', x)
    ensures gone !in b'.states && gone !in b'.windows && IsKept(b, id, b')
    ensures forall x {:trigger SameEntry(b, b', x)} :: x != id && x != gone ==> SameEntry(b, b', x)
  {
    assert SameEntry(b, mid, id) && SameEntry(mid, b', gone);
    forall x | x != id && x != gone ensures SameEntry(b, b', x) {
      assert SameEntry(b, mid, x) && SameEntry(mid, b', x);
    }
  }

  lemma ForgetEffect(b: Books, id: SeqId)
    ensures id !in Forget(b, id).states && id !in Forget(b, id).windows && id !in Forget(b, id).lrus
    ensures forall x {:trigger SameEntry(b, Forget(b, id), x)} :: x != id ==> SameEntry(b, Forget(b, id), x)
  {
  }

  lemma KeepEffect(b: Books, limit: int, id: SeqId)
    requires Consistent(b, limit) && id in b.states
    ensures IsKept(b, id, Keep(b, id))
    ensures forall x {:trigger SameEntry(b, Keep(b, id), x)} :: x != id ==> SameEntry(b, Keep(b, id), x)
  {
    assert Entered(b, id);
    forall x | x in b.lrus ensures b.lrus[x] <= b.counter {
      assert Stamped(b.lrus, b.seqOfLru, x) && Counted(b, b.lrus[x]);
    }
  }

  /** Of the stored sequences, only a shares the whole of toks. */
  ghost predicate OnlyMatch(m: Contents, toks: seq<Token>, a: SeqId) {
    a in m && m[a] == toks && forall x :: x in m && x != a ==> Lcp(toks, m[x]) < |toks|
  }

  lemma WholeMatch(toks: seq<Token>)
    ensures Lcp(toks, toks) == |toks|
  {
    LcpUnique(toks, toks, |toks|);
  }

  /** A kept sequence that alone matches a prompt but its last token, under the same window, is taken over whole. */
  lemma KeptIsReused(e: Eager, a: SeqId, id: SeqId, text: seq<Token>, last: Token, window: Window, r: Matched,
                     e': Eager)
    requires text != [] && OnlyMatch(e.contents, text, a)
    requires a in e.books.states && e.books.states[a] == Recycling
    requires a in e.books.windows && e.books.windows[a] == window
    requires Inserts(e, id, text + [last], window, r, e')
    ensures r == Reused(a, |text|, 0) && a in e'.contents && e'.contents[a] == text
  {
    assert (text + [last])[..|text|] == text;
    WholeMatch(text);
    NearlyAllIff(|text|, |text|);
    assert Best(e.contents, text, |text|, a);
    assert Reusable(e.contents, e.books.states, e.books.windows, text, |text|, window, a);
    assert text[..|text|] == text;
  }

  /** Kept under another window, it is not taken over; with either window in use, it is not forked from. */
  lemma OtherWindowIsNot(e: Eager, a: SeqId, id: SeqId, text: seq<Token>, last: Token, window: Window, r: Matched,
                         e': Eager)
    requires text != [] && OnlyMatch(e.contents, text, a)
    requires a in e.books.windows && e.books.windows[a] != window
    requires Inserts(e, id, text + [last], window, r, e')
    ensures !r.Reused?
    ensures window.size != -1 || e.books.windows[a].size != -1 ==> r == NewSequence
    ensures window.size == -1 && e.books.windows[a].size == -1 ==> r == Forked(a, |text|)
  {
    assert (text + [last])[..|text|] == text;
    WholeMatch(text);
    assert Best(e.contents, text, |text|, a);
  }

  /** An active sequence without a window that alone matches a prompt without a window is forked. */
  lemma ActiveIsForked(e: Eager, a: SeqId, id: SeqId, text: seq<Token>, last: Token, window: Window, r: Matched,
                       e': Eager)
    requires text != [] && OnlyMatch(e.contents, text, a) && window.size == -1
    requires a in e.books.states && e.books.states[a] == Active
    requires a in e.books.windows && e.books.windows[a].size == -1
    requires Inserts(e, id, text + [last], window, r, e')
    ensures r == Forked(a, |text|) && id in e'.contents && e'.contents[id] == text
  {
    assert (text + [last])[..|text|] == text && text[..|text|] == text;
    WholeMatch(text);
    assert Best(e.contents, text, |text|, a);
  }

  /**
   A prompt that shares nothing with any sequence starts anew, and one that is matched is matched
   as far as possible.
   */
  lemma MatchedAsFar(e: Eager, id: SeqId, tokens: seq<Token>, window: Window, r: Matched, e': Eager)
    requires tokens != [] && Inserts(e, id, tokens, window, r, e')
    ensures (forall x :: x in e.contents ==> Lcp(tokens[..|tokens| - 1], e.contents[x]) == 0) ==> r == NewSequence
    ensures !r.NewSequence? ==> r.offset > 0
    ensures !r.NewSequence? ==> forall x :: x in e.contents ==> Lcp(tokens[..|tokens| - 1], e.contents[x]) <= r.offset
    ensures r.Forked? ==> r.parentId in e.contents && Lcp(tokens[..|tokens| - 1], e.contents[r.parentId]) == r.offset
    ensures r.Reused? ==> r.reusedId in e.contents && Lcp(tokens[..|tokens| - 1], e.contents[r.reusedId]) == r.offset
  {
  }

  /**
   Of the kept sequences that match best under the window, a shortest one is taken over; with a
   window, only a whole one.
   */
  lemma ShortestIsReused(e: Eager, id: SeqId, tokens: seq<Token>, window: Window, r: Matched, e': Eager, x: SeqId)
    requires tokens != [] && Inserts(e, id, tokens, window, r, e')
    requires x in e.contents && x in e.books.states && e.books.states[x] == Recycling
    requires x in e.books.windows && e.books.windows[x] == window
    requires r.Reused? && Lcp(tokens[..|tokens| - 1], e.contents[x]) == r.offset
    ensures r.reusedId in e.contents
    ensures window.size == -1 ==> |e.contents[r.reusedId]| <= |e.contents[x]|
    ensures window.size != -1 ==> |e.contents[r.reusedId]| == r.offset && r.popped == 0
  {
    assert Reusable(e.contents, e.books.states, e.books.windows, tokens[..|tokens| - 1], r.offset, window, x);
  }

  /** Only active sequences, or unknown ones, have extensions queued. */
  ghost predicate QueueOk(pending: Pending, states: map<SeqId, SequenceState>) {
    forall i {:trigger pending[i]} :: 0 <= i < |pending| && pending[i].0 in states ==> states[pending[i].0] == Active
  }

  /** A sequence without queued extensions goes from tables and contents. */
  lemma DropKeeps(b: Books, limit: int, m: Contents, pending: Pending, id: SeqId)
    requires Consistent(b, limit) && b.states.Keys == m.Keys && QueueOk(pending, b.states)
    ensures var b', m' := Forget(b, id), m - {id};
            Consistent(b', limit) && b'.states.Keys == m'.Keys && QueueOk(pending, b'.states)
  {
    ForgetAny(b, limit, id);
  }

  // ---------------------------------------------------------------- the cache

  class PrefixCache {
    const tree: PagedRadixTree
    /** -1 stands for no limit. */
    const maxRecycling: int
    var books: Books
    var pending: Pending

    ghost predicate Valid()
      reads this, tree
    {
      && tree.Valid() && Consistent(books, maxRecycling)
      && books.states.Keys == tree.Stored().Keys
      && QueueOk(pending, books.states)
    }

    /** The contents of a cache that extends at once. */
    ghost function View(): Contents
      reads this, tree
    {
      Flushed(tree.Stored(), pending)
    }

    /** The cache as it looks from outside. */
    ghost function Now(): Eager
      reads this, tree
    {
      Eager(View(), books)
    }

    constructor (maxRecycling: int)
      requires maxRecycling >= -1
      ensures Valid() && View() == map[] && this.maxRecycling == maxRecycling && fresh(tree)
      ensures books == Books(map[], map[], map[], map[], 0)
    {
      tree := new PagedRadixTree();
      this.maxRecycling := maxRecycling;
      books, pending := Books(map[], map[], map[], map[], 0), [];
    }

    /** Queues an extension; to the outside it has happened. */
    method ExtendSequence(id: SeqId, toks: seq<Token>)
      requires Valid() && (id in books.states ==> books.states[id] == Active)
      modifies this`pending
      ensures Valid() && View() == Extended(old(View()), (id, toks))
    {
      FlushedLast(tree.Stored(), pending, (id, toks));
      pending := pending + [(id, toks)];
    }

    /** Moves the queued extensions into the tree; invisible from outside. */
    method CommitSequenceExtension()
      requires Valid()
      modifies this`pending, tree
      ensures Valid() && pending == [] && View() == old(View()) == tree.Stored()
    {
      for i := 0 to |pending|
        invariant tree.Valid() && pending == old(pending)
        invariant tree.Stored().Keys == old(tree.Stored().Keys)
        invariant Flushed(tree.Stored(), pending[i..]) == old(View())
      {
        var (id, toks) := pending[i];
        assert pending[i..][0] == (id, toks) && pending[i..][1..] == pending[i + 1..];
        if tree.HasSequence(id) {
          assert id in books.states && books.states[id] == Active;
          tree.ExtendSequence(id, toks);
        }
      }
      pending := [];
    }

    method RollBackSequence(id: SeqId, n: nat)
      requires Valid() && id in books.states && books.states[id] == Active
      requires id in View() && 0 < n <= |View()[id]|
      modifies this`pending, tree
      ensures Valid() && RollsBack(old(Now()), id, n, Now())
    {
      CommitSequenceExtension();
      RollBackInTree(id, n);
    }

    method RollBackInTree(id: SeqId, n: nat)
      requires tree.Valid() && pending == [] && id in tree.Stored() && 0 < n <= |tree.Stored()[id]|
      modifies tree
      ensures tree.Valid() && tree.Stored().Keys == old(tree.Stored()).Keys && pending == [] && books == old(books)
      ensures tree.Stored() == old(tree.Stored())[id := old(tree.Stored())[id][..|old(tree.Stored())[id]| - n]]
      ensures id in old(View()) && n <= |old(View())[id]| && RollsBack(old(Now()), id, n, Now())
    {
      FlushedNothing(tree.Stored());
      tree.RollBackSequence(id, n);
      FlushedNothing(tree.Stored());
    }

    method RemoveFromTree(id: SeqId)
      requires tree.Valid() && id in tree.Stored() && forall i :: 0 <= i < |pending| ==> pending[i].0 != id
      modifies tree
      ensures tree.Valid() && tree.Stored().Keys == (old(tree.Stored()) - {id}).Keys
      ensures View() == old(View()) - {id} && pending == old(pending) && books == old(books)
    {
      FlushedRemove(tree.Stored(), pending, id);
      tree.RemoveSequence(id);
    }

    /** Removes a sequence for which no extension is queued. */
    method DropIt(id: SeqId)
      requires Valid() && id in books.states && forall i :: 0 <= i < |pending| ==> pending[i].0 != id
      modifies this`books, tree
      ensures Valid() && Now() == Dropped(old(Now()), id)
    {
      DropKeeps(books, maxRecycling, tree.Stored(), pending, id);
      books := books.(states := books.states - {id}, windows := books.windows - {id}, lrus := books.lrus - {id},
                      seqOfLru := if id in books.lrus then books.seqOfLru - {books.lrus[id]} else books.seqOfLru);
      RemoveFromTree(id);
    }

    /** Drops some sequence that is kept for reuse, if there is one. Active sequences stay. */
    method TryFreeMemory() returns (freed: bool, removed: seq<SeqId>)
      requires Valid()
      modifies this`books, tree
      ensures Valid() && pending == old(pending) && Frees(old(Now()), removed, Now())
      ensures freed <==> exists id :: id in old(books).lrus
      ensures forall x :: x in removed ==> x in old(books).lrus && x !in books.states && x !in View()
      ensures forall x {:trigger SameEntry(old(books), books, x)} :: x !in removed ==> SameEntry(old(books), books, x)
    {
      if lru :| lru in books.seqOfLru {
        var id := books.seqOfLru[lru];
        assert StampOf(books.lrus, books.seqOfLru, lru) && Entered(books, id);
        ForgetEffect(books, id);
        DropIt(id);
        return true, [id];
      } else {
        assert forall id :: id in books.lrus ==> Stamped(books.lrus, books.seqOfLru, id);
        return false, [];
      }
    }

    /** A finished sequence is kept for reuse, or removed at once. */
    method RecycleSequence(id: SeqId, keep: bool) returns (removed: seq<SeqId>)
      requires Valid() && id in books.states && books.states[id] == Active
      modifies this`books, this`pending, tree
      ensures Valid() && pending == [] && Recycles(maxRecycling, old(Now()), id, keep, removed, Now())
      ensures forall x :: x in removed ==> x !in books.states && x !in View()
      ensures forall x {:trigger SameEntry(old(books), books, x)} ::
                x != id && x !in removed ==> SameEntry(old(books), books, x)
      ensures id in removed <==> !keep || maxRecycling == 0
      ensures id !in removed ==>
                && id in books.states && books.states[id] == Recycling
                && id in old(books).windows && id in books.windows && books.windows[id] == old(books).windows[id]
    {
      removed := RecycleFlushed(id, keep);
      RecycleEffect(maxRecycling, old(Now()), id, keep, removed, Now());
    }

    method RecycleFlushed(id: SeqId, keep: bool) returns (removed: seq<SeqId>)
      requires Valid() && id in books.states && books.states[id] == Active
      modifies this`books, this`pending, tree
      ensures Valid() && pending == [] && Recycles(maxRecycling, old(Now()), id, keep, removed, Now())
    {
      CommitSequenceExtension();
      if keep && maxRecycling != 0 {
        removed := MakeRoom(id);
        KeepIt(id);
      } else {
        DropIt(id);
        removed := [id];
      }
    }

    method KeepIt(id: SeqId)
      requires Valid() && pending == [] && id in books.states && books.states[id] == Active
      requires maxRecycling < 0 || |books.lrus| < maxRecycling
      modifies this`books
      ensures Valid() && Now() == Kept(old(Now()), id)
    {
      KeepKeeps(books, maxRecycling, id);
      var k := books.counter + 1;
      books := books.(states := books.states[id := Recycling], lrus := books.lrus[id := k],
                      seqOfLru := books.seqOfLru[k := id], counter := k);
      assert books == Keep(old(books), id);
    }

    /** Frees one of the kept sequences when their number has reached the limit. */
    method MakeRoom(ghost active: SeqId) returns (removed: seq<SeqId>)
      requires Valid() && maxRecycling != 0 && active in books.states && books.states[active] == Active
      modifies this`books, tree
      ensures Valid() && pending == old(pending) && active in books.states && books.states[active] == Active
      ensures maxRecycling < 0 || |books.lrus| < maxRecycling
      ensures if |old(books).lrus| == maxRecycling then DropsOne(old(Now()), removed, Now())
              else removed == [] && Now() == old(Now())
    {
      removed := [];
      if |books.lrus| == maxRecycling {
        assert exists id :: id in books.lrus by {
          var some := Pick(books.lrus.Keys);
        }
        assert Entered(books, active);
        var freed;
        freed, removed := TryFreeMemory();
        ForgetKept(old(books), maxRecycling, removed[0]);
      }
    }

    // -------------------------------------------------------------- new prompts

    /** The candidates of a lookup are known to the books and to the tree. */
    ghost predicate Known(ids: seq<SeqId>)
      reads this, tree
    {
      forall id :: id in ids ==> id in books.states && id in books.windows && id in tree.Stored()
    }

    /** What is in the tree is in the tables. */
    lemma KnownIds(ids: seq<SeqId>)
      requires Valid() && forall id :: id in ids ==> id in tree.Stored()
      ensures Known(ids)
    {
      forall id | id in ids ensures id in books.states && id in books.windows {
        assert id in tree.Stored().Keys;
        assert Entered(books, id);
      }
    }

    ghost predicate Offers(id: SeqId, window: Window)
      reads this
    {
      id in books.states && books.states[id] == Recycling && id in books.windows && books.windows[id] == window
    }

    /** With a sliding window: a kept sequence that is matched as a whole. */
    method FindExact(ids: seq<SeqId>, offset: nat, window: Window) returns (found: bool, id: SeqId)
      requires Valid() && Known(ids)
      ensures found ==> id in ids && Offers(id, window) && |tree.Stored()[id]| == offset
      ensures !found ==> forall x :: x in ids && Offers(x, window) ==> |tree.Stored()[x]| != offset
    {
      for i := 0 to |ids|
        invariant forall x :: x in ids[..i] && Offers(x, window) ==> |tree.Stored()[x]| != offset
      {
        id := ids[i];
        assert id in ids && ids[..i + 1] == ids[..i] + [id];
        if books.states[id] == Recycling && books.windows[id] == window {
          var length := tree.GetSequenceLength(id);
          if length == offset {
            return true, id;
          }
        }
      }
      assert ids[..|ids|] == ids;
      return false, 0;
    }

    /** Without a sliding window: the shortest kept sequence. */
    method FindShortest(ids: seq<SeqId>, window: Window) returns (found: bool, id: SeqId, length: nat)
      requires Valid() && Known(ids)
      ensures found ==> id in ids && Offers(id, window) && length == |tree.Stored()[id]|
      ensures found ==> forall x :: x in ids && Offers(x, window) ==> length <= |tree.Stored()[x]|
      ensures !found ==> forall x :: x in ids ==> !Offers(x, window)
    {
      found, id, length := false, 0, 0;
      for i := 0 to |ids|
        invariant found ==> id in ids && Offers(id, window) && length == |tree.Stored()[id]|
        invariant found ==> forall x :: x in ids[..i] && Offers(x, window) ==> length <= |tree.Stored()[x]|
        invariant !found ==> forall x :: x in ids[..i] ==> !Offers(x, window)
      {
        var x := ids[i];
        assert x in ids && ids[..i + 1] == ids[..i] + [x];
        if books.states[x] == Recycling && books.windows[x] == window {
          var n := tree.GetSequenceLength(x);
          if !found || n < length {
            found, id, length := true, x, n;
          }
        }
      }
      assert ids[..|ids|] == ids;
    }

    /** A sequence without a sliding window to fork from. */
    method FindForkable(ids: seq<SeqId>) returns (found: bool, id: SeqId)
      requires Known(ids)
      ensures found ==> id in ids && books.windows[id].size == -1
      ensures !found ==> forall x :: x in ids ==> books.windows[x].size != -1
    {
      for i := 0 to |ids|
        invariant forall x :: x in ids[..i] ==> books.windows[x].size != -1
      {
        id := ids[i];
        assert id in ids && ids[..i + 1] == ids[..i] + [id];
        if books.windows[id].size == -1 {
          return true, id;
        }
      }
      assert ids[..|ids|] == ids;
      return false, 0;
    }

    /** Which sequence a new prompt starts from; nothing changes yet. */
    method Decide(toks: seq<Token>, window: Window) returns (r: Matched)
      requires Valid()
      ensures Chosen(tree.Stored(), books.states, books.windows, toks, window, r)
    {
      var offset, ids := tree.MatchPrefix(toks);
      if offset == 0 {
        r := NewSequence;
        assert NothingToStartFrom(tree.Stored(), books.states, books.windows, toks, window, 0);
      } else {
        KnownIds(ids);
        if window.size != -1 {
          r := DecideWithWindow(toks, window, offset, ids);
        } else {
          r := DecideWithoutWindow(toks, window, offset, ids);
        }
      }
    }

    method DecideWithWindow(toks: seq<Token>, window: Window, offset: nat, ids: seq<SeqId>) returns (r: Matched)
      requires Valid() && Known(ids) && window.size != -1 && LookedUp(tree.Stored(), toks, offset, ids)
      ensures Chosen(tree.Stored(), books.states, books.windows, toks, window, r)
    {
      var found, q := FindExact(ids, offset, window);
      if found {
        r := Reused(q, offset, 0);
      } else {
        SomeBest(tree.Stored(), toks, offset, ids);
        r := NewSequence;
        assert NothingToStartFrom(tree.Stored(), books.states, books.windows, toks, window, offset);
      }
    }

    method DecideWithoutWindow(toks: seq<Token>, window: Window, offset: nat, ids: seq<SeqId>) returns (r: Matched)
      requires Valid() && Known(ids) && window.size == -1 && LookedUp(tree.Stored(), toks, offset, ids)
      ensures Chosen(tree.Stored(), books.states, books.windows, toks, window, r)
    {
      var found, q, length := FindShortest(ids, window);
      if found && NearlyAll(offset, length) {
        MatchedPart(tree.Stored(), toks, offset, q);
        return Reused(q, offset, length - offset);
      }
      r := DecideToFork(toks, window, offset, ids);
    }

    /** Nothing to take over: fork from a matching sequence or start from nothing. */
    method DecideToFork(toks: seq<Token>, window: Window, offset: nat, ids: seq<SeqId>) returns (r: Matched)
      requires Known(ids) && window.size == -1 && LookedUp(tree.Stored(), toks, offset, ids)
      requires forall x :: x in ids && Offers(x, window) ==> !NearlyAll(offset, |tree.Stored()[x]|)
      ensures Chosen(tree.Stored(), books.states, books.windows, toks, window, r)
    {
      var forkable, parent := FindForkable(ids);
      if forkable {
        r := Forked(parent, offset);
      } else {
        SomeBest(tree.Stored(), toks, offset, ids);
        r := NewSequence;
        assert NothingToStartFrom(tree.Stored(), books.states, books.windows, toks, window, offset);
      }
    }

    method AddNew(id: SeqId, window: Window)
      requires Valid() && id !in books.states && pending == []
      modifies this`books, tree
      ensures Valid() && tree.Stored() == old(tree.Stored())[id := []] && books == Enter(old(books), id, window)
    {
      EnterKeeps(books, maxRecycling, id, window);
      tree.AddSequence(id);
      books := books.(states := books.states[id := Active], windows := books.windows[id := window]);
    }

    method ForkFrom(id: SeqId, parentId: SeqId, offset: nat, window: Window)
      requires Valid() && id !in books.states && pending == []
      requires parentId in tree.Stored() && 0 < offset <= |tree.Stored()[parentId]|
      modifies this`books, tree
      ensures Valid() && tree.Stored() == old(tree.Stored())[id := old(tree.Stored())[parentId][..offset]]
      ensures books == Enter(old(books), id, window)
    {
      EnterKeeps(books, maxRecycling, id, window);
      tree.ForkSequence(id, parentId, offset);
      books := books.(states := books.states[id := Active], windows := books.windows[id := window]);
    }

    /** A kept sequence becomes active and loses its last tokens. */
    method Reuse(id: SeqId, popped: nat)
      requires Valid() && id in books.lrus && pending == [] && id in tree.Stored() && popped < |tree.Stored()[id]|
      modifies this`books, tree
      ensures Valid() && books == Activate(old(books), id)
      ensures tree.Stored()
           == old(tree.Stored())[id := old(tree.Stored())[id][..|old(tree.Stored())[id]| - popped]]
    {
      assert Entered(books, id);
      ActivateKeeps(books, maxRecycling, id);
      books := books.(states := books.states[id := Active], lrus := books.lrus - {id},
                      seqOfLru := books.seqOfLru - {books.lrus[id]});
      DropNothing(tree.Stored(), id);
      if popped > 0 {
        RollBackInTree(id, popped);
      }
    }

    /** Carries a decision out. */
    method Enact(id: SeqId, toks: seq<Token>, window: Window, r: Matched)
      requires Valid() && id !in books.states && pending == []
      requires Chosen(tree.Stored(), books.states, books.windows, toks, window, r)
      modifies this`books, tree
      ensures Valid() && tree.Stored() == Inserted(old(tree.Stored()), id, toks, r)
      ensures books == BooksAfter(old(books), id, window, r)
    {
      match r
      case NewSequence => AddNew(id, window);
      case Forked(parentId, offset) =>
        MatchedPart(tree.Stored(), toks, offset, parentId);
        ForkFrom(id, parentId, offset, window);
      case Reused(reusedId, offset, popped) =>
        assert Entered(books, reusedId);
        MatchedPart(tree.Stored(), toks, offset, reusedId);
        Reuse(reusedId, popped);
    }

    /** Takes a new prompt in. Everything but its last token may come from the cache. */
    method InsertSequence(id: SeqId, tokens: seq<Token>, window: Window) returns (r: Matched)
      requires Valid() && id !in books.states && tokens != [] && window.size != 0
      modifies this`books, this`pending, tree
      ensures Valid() && pending == [] && Inserts(old(Now()), id, tokens, window, r, Now())
      ensures var a, offset := (if r.Reused? then r.reusedId else id), (if r.NewSequence? then 0 else r.offset);
              && a in books.states && books.states[a] == Active && a in books.windows && books.windows[a] == window
              && (forall x {:trigger SameEntry(old(books), books, x)} :: x != a ==> SameEntry(old(books), books, x))
              && offset < |tokens| && View() == old(View())[a := tokens[..offset]]
              && (r.Reused? && window.size == -1 ==>
                    r.reusedId in old(View()) && 10 * r.popped < |old(View())[r.reusedId]|)
    {
      r := InsertFlushed(id, tokens, window);
      InsertEffect(maxRecycling, old(Now()), id, tokens, window, r, Now());
    }

    method InsertFlushed(id: SeqId, tokens: seq<Token>, window: Window) returns (r: Matched)
      requires Valid() && id !in books.states && tokens != [] && window.size != 0
      modifies this`books, this`pending, tree
      ensures Valid() && pending == [] && Inserts(old(Now()), id, tokens, window, r, Now())
    {
      CommitSequenceExtension();
      var toks := tokens[..|tokens| - 1];
      r := Decide(toks, window);
      Enact(id, toks, window, r);
      FlushedNothing(tree.Stored());
    }
  }

  lemma DropNothing(m: Contents, id: SeqId)
    requires id in m
    ensures m[id := m[id][..|m[id]|]] == m
  {
    assert m[id][..|m[id]|] == m[id];
  }

  ghost predicate LookedUp(m: Contents, toks: seq<Token>, offset: nat, ids: seq<SeqId>) {
    && 0 < offset <= |toks| && ids != []
    && (forall id :: id in m ==> Lcp(toks, m[id]) <= offset)
    && (forall id :: id in ids <==> Best(m, toks, offset, id))
  }

  lemma SomeBest(m: Contents, toks: seq<Token>, offset: nat, ids: seq<SeqId>)
    requires LookedUp(m, toks, offset, ids)
    ensures exists id :: Best(m, toks, offset, id)
  {
    var id := ids[0];
    assert id in ids;
  }

  lemma MatchedPart(m: Contents, toks: seq<Token>, offset: nat, id: SeqId)
    requires Best(m, toks, offset, id)
    ensures offset <= |toks| && offset <= |m[id]| && m[id][..offset] == toks[..offset]
  {
  }

  function BooksAfter(b: Books, id: SeqId, window: Window, r: Matched): Books {
    if r.Reused? then Activate(b, r.reusedId) else Enter(b, id, window)
  }

  // ---------------------------------------------------------------- whole runs

  /** Whether a call is accepted. To know the length of a sequence the queue has to be moved into the tree. */
  method Accepts(cache: PrefixCache, event: Event) returns (ok: bool)
    requires cache.Valid()
    modifies cache`pending, cache.tree
    ensures cache.Valid() && cache.Now() == old(cache.Now())
    ensures ok <==> Callable(cache.Now(), event)
  {
    match event
    case Extend(id, _) => ok := id in cache.books.states ==> cache.books.states[id] == Active;
    case Commit => ok := true;
    case RollBack(id, n) =>
      ok := id in cache.books.states && cache.books.states[id] == Active;
      if ok {
        cache.CommitSequenceExtension();
        var length := cache.tree.GetSequenceLength(id);
        ok := 0 < n <= length;
      }
    case Free => ok := true;
    case Recycle(id, _) => ok := id in cache.books.states && cache.books.states[id] == Active;
    case Insert(id, tokens, window) => ok := id !in cache.books.states && tokens != [] && window.size != 0;
  }

  method Perform(cache: PrefixCache, event: Event) returns (out: Outcome)
    requires cache.Valid() && Callable(cache.Now(), event)
    modifies cache`books, cache`pending, cache.tree
    ensures cache.Valid() && EagerStep(cache.maxRecycling, old(cache.Now()), event, out, cache.Now())
  {
    out := Quiet;
    match event
    case Extend(id, toks) => cache.ExtendSequence(id, toks);
    case Commit => cache.CommitSequenceExtension();
    case RollBack(id, n) => cache.RollBackSequence(id, n);
    case Free =>
      var freed, ids := cache.TryFreeMemory();
      out := Removed(ids);
    case Recycle(id, keep) =>
      var ids := cache.RecycleSequence(id, keep);
      out := Removed(ids);
    case Insert(id, tokens, window) =>
      var r := cache.InsertSequence(id, tokens, window);
      out := Answered(r);
  }

  /** The states of an eager cache that starts empty and shows the given outcomes. */
  ghost predicate EagerRun(limit: int, states: seq<Eager>, events: seq<Event>, outs: seq<Outcome>) {
    && |states| == |events| + 1 && |outs| == |events|
    && states[0] == Eager(map[], Books(map[], map[], map[], map[], 0))
    && forall i :: 0 <= i < |events| ==> EagerStep(limit, states[i], events[i], outs[i], states[i + 1])
  }

  lemma EagerRunGrows(limit: int, states: seq<Eager>, events: seq<Event>, outs: seq<Outcome>,
                      event: Event, out: Outcome, e: Eager)
    requires EagerRun(limit, states, events, outs) && EagerStep(limit, states[|events|], event, out, e)
    ensures EagerRun(limit, states + [e], events + [event], outs + [out])
  {
  }

  method Handle(cache: PrefixCache, event: Event) returns (out: Outcome)
    requires cache.Valid()
    modifies cache`books, cache`pending, cache.tree
    ensures cache.Valid() && EagerStep(cache.maxRecycling, old(cache.Now()), event, out, cache.Now())
  {
    var ok := Accepts(cache, event);
    if ok {
      out := Perform(cache, event);
    } else {
      out := Refused;
    }
  }

  /**
   Whatever calls are made, in whatever order: the answers and removed ids of the cache, and what
   it then holds, are those of a run of the cache that extends at once.
   */
  method Run(maxRecycling: int, events: seq<Event>)
    returns (cache: PrefixCache, outs: seq<Outcome>, ghost states: seq<Eager>)
    requires maxRecycling >= -1
    ensures cache.Valid() && EagerRun(maxRecycling, states, events, outs) && states[|events|] == cache.Now()
    ensures Consistent(cache.books, maxRecycling)
  {
    cache := new PrefixCache(maxRecycling);
    outs, states := [], [cache.Now()];
    for i := 0 to |events|
      invariant fresh(cache) && fresh(cache.tree) && cache.Valid() && cache.maxRecycling == maxRecycling
      invariant EagerRun(maxRecycling, states, events[..i], outs) && states[i] == cache.Now()
    {
      var out := Handle(cache, events[i]);
      EagerRunGrows(maxRecycling, states, events[..i], outs, events[i], out, cache.Now());
      TakeNext(events, i);
      outs, states := outs + [out], states + [cache.Now()];
    }
    assert events[..|events|] == events;
  }

  /** A prompt comes, is extended and finished: the sequence it went on with is kept under its window. */
  method ComesAndGoes(cache: PrefixCache, id: SeqId, tokens: seq<Token>, window: Window, more: seq<Token>)
    returns (a: SeqId, text: seq<Token>)
    requires cache.Valid() && cache.maxRecycling != 0
    requires id !in cache.books.states && tokens != [] && window.size != 0
    modifies cache`books, cache`pending, cache.tree
    ensures cache.Valid() && exists offset :: 0 <= offset < |tokens| && text == tokens[..offset] + more
    ensures a in cache.View() && cache.View()[a] == text
    ensures a in cache.books.states && cache.books.states[a] == Recycling
    ensures a in cache.books.windows && cache.books.windows[a] == window
  {
    var r := cache.InsertSequence(id, tokens, window);
    a := ActiveId(id, r);
    text := tokens[..if r.NewSequence? then 0 else r.offset] + more;
    cache.ExtendSequence(a, more);
    var removed := cache.RecycleSequence(a, true);
  }

  /** It comes again under a new id with one more token: if nothing else matches as far, it is taken over whole. */
  method ComesBack(cache: PrefixCache, id: SeqId, tokens: seq<Token>, window: Window, more: seq<Token>,
                   id': SeqId, last: Token)
    returns (a: SeqId, text: seq<Token>, came: bool, r: Matched, ghost only: bool)
    requires cache.Valid() && cache.maxRecycling != 0
    requires id !in cache.books.states && tokens != [] && window.size != 0
    modifies cache`books, cache`pending, cache.tree
    ensures cache.Valid() && exists offset :: 0 <= offset < |tokens| && text == tokens[..offset] + more
    ensures came && only ==> r == Reused(a, |text|, 0) && a in cache.View() && cache.View()[a] == text
  {
    a, text := ComesAndGoes(cache, id, tokens, window, more);
    ghost var e := cache.Now();
    came, r, only := id' !in cache.books.states && text != [], NewSequence, OnlyMatch(e.contents, text, a);
    if came {
      r := cache.InsertSequence(id', text + [last], window);
      if only {
        KeptIsReused(e, a, id', text, last, window, r, cache.Now());
      }
    }
  }
}
