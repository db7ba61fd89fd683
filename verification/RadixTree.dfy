/**
 The paged radix tree: pages, page pool and the map from sequences to pages, updated in place.
 Every operation is specified by what it does to the plain map from sequence id to tokens.
 */
module RadixTree {
  import opened Lists
  import opened Tokens
  import opened RadixPages
  import opened RadixSteps

  const PAGE_BLOCK: nat := 64

  /** A pool index is free or in use, and not both. */
  predicate Slot(ps: Pages, free: seq<PageId>, size: nat, i: PageId) {
    && (0 <= i < size <==> i in free || (i in ps && i != ROOT))
    && !(i in free && i in ps)
  }

  /** Free and used pool indices partition the pool. */
  ghost predicate PoolOk(ps: Pages, free: seq<PageId>, size: nat) {
    NoDup(free) && forall i {:trigger Slot(ps, free, size, i)} :: Slot(ps, free, size, i)
  }

  /** The pool while page f is handed out but not in use. */
  ghost predicate PoolWithout(ps: Pages, free: seq<PageId>, size: nat, f: PageId) {
    && NoDup(free) && 0 <= f < size && f !in ps && f !in free
    && forall i {:trigger Slot(ps, free, size, i)} :: i != f ==> Slot(ps, free, size, i)
  }

  lemma PoolTakes(ps: Pages, ps': Pages, free: seq<PageId>, size: nat, f: PageId)
    requires PoolWithout(ps, free, size, f) && ps'.Keys == ps.Keys + {f}
    ensures PoolOk(ps', free, size)
  {
    forall i ensures Slot(ps', free, size, i) {
      assert i in ps'.Keys <==> i in ps.Keys || i == f;
      assert i != f ==> Slot(ps, free, size, i);
    }
  }

  lemma PoolGives(ps: Pages, ps': Pages, free: seq<PageId>, size: nat, f: PageId)
    requires PoolOk(ps, free, size) && f in ps && f != ROOT && ps'.Keys == ps.Keys - {f}
    ensures PoolWithout(ps', free, size, f)
  {
    assert Slot(ps, free, size, f);
    assert f !in ps'.Keys;
    forall i | i != f ensures Slot(ps', free, size, i) {
      assert i in ps'.Keys <==> i in ps.Keys;
      assert Slot(ps, free, size, i);
    }
  }

  /** Pages may change as long as the same ones are in use. */
  lemma PoolSame(ps: Pages, ps': Pages, free: seq<PageId>, size: nat)
    requires PoolOk(ps, free, size) && ps'.Keys == ps.Keys
    ensures PoolOk(ps', free, size)
  {
    forall i ensures Slot(ps', free, size, i) {
      assert i in ps'.Keys <==> i in ps.Keys;
      assert Slot(ps, free, size, i);
    }
  }

  lemma PoolGrows(ps: Pages, free: seq<PageId>, size: nat)
    requires PoolOk(ps, free, size)
    ensures PoolOk(ps, free + [size], size + 1)
  {
    assert Slot(ps, free, size, size);
    var free', size' := free + [size], size + 1;
    forall i ensures Slot(ps, free', size', i) {
      assert Slot(ps, free, size, i);
    }
  }

  lemma PoolPops(ps: Pages, free: seq<PageId>, size: nat, f: PageId)
    requires PoolOk(ps, free + [f], size)
    ensures PoolWithout(ps, free, size, f)
  {
    var all := free + [f];
    assert all[|free|] == f && Slot(ps, all, size, f);
    assert forall i :: 0 <= i < |free| ==> all[i] == free[i];
    forall i | i != f ensures Slot(ps, free, size, i) {
      assert Slot(ps, all, size, i);
    }
  }

  lemma PoolPushes(ps: Pages, free: seq<PageId>, size: nat, f: PageId)
    requires PoolWithout(ps, free, size, f)
    ensures PoolOk(ps, free + [f], size)
  {
    var all := free + [f];
    forall i ensures Slot(ps, all, size, i) {
      assert i != f ==> Slot(ps, free, size, i);
    }
  }

  class PagedRadixTree {
    var pages: Pages
    var seq2page: Owner
    var freeIndices: seq<PageId>
    var poolSize: nat
    /** The tokens on the way from the root to each page. */
    ghost var text: Texts

    ghost predicate Sound()
      reads this
    {
      Inv(pages, text, seq2page) && PoolOk(pages, freeIndices, poolSize)
    }

    ghost predicate Valid()
      reads this
    {
      Sound() && Ended(pages, NULL)
    }

    ghost function Stored(): map<SeqId, seq<Token>>
      reads this
    {
      Contents(seq2page, text)
    }

    constructor ()
      ensures Valid() && Stored() == map[]
    {
      pages := map[ROOT := Page(NULL, [], [], [])];
      text := map[ROOT := []];
      seq2page := map[];
      freeIndices := [];
      poolSize := 0;
      new;
      NewPageBlock();
    }

    // -------------------------------------------------------------- page pool

    method NewPageBlock()
      requires PoolOk(pages, freeIndices, poolSize)
      modifies this`freeIndices, this`poolSize
      ensures PoolOk(pages, freeIndices, poolSize) && freeIndices != []
    {
      for k := 0 to PAGE_BLOCK
        invariant PoolOk(pages, freeIndices, poolSize) && (k > 0 ==> freeIndices != [])
      {
        PoolGrows(pages, freeIndices, poolSize);
        freeIndices := freeIndices + [poolSize];
        poolSize := poolSize + 1;
      }
    }

    /** A page that is not in use; a new block of pages is added to an exhausted pool. */
    method Allocate() returns (f: PageId)
      requires Sound()
      modifies this`freeIndices, this`poolSize
      ensures PoolWithout(pages, freeIndices, poolSize, f)
    {
      if freeIndices == [] {
        NewPageBlock();
      }
      f := freeIndices[|freeIndices| - 1];
      assert freeIndices == freeIndices[..|freeIndices| - 1] + [f];
      freeIndices := freeIndices[..|freeIndices| - 1];
      PoolPops(pages, freeIndices, poolSize, f);
    }

    method Free(p: PageId)
      requires PoolWithout(pages, freeIndices, poolSize, p)
      modifies this`freeIndices
      ensures PoolOk(pages, freeIndices, poolSize)
      ensures freeIndices == old(freeIndices) + [p]
    {
      PoolPushes(pages, freeIndices, poolSize, p);
      freeIndices := freeIndices + [p];
    }

    // -------------------------------------------------------------- split and merge

    method SetParent(cs: seq<PageId>, q: PageId)
      requires forall c :: c in cs ==> c in pages
      modifies this`pages
      ensures pages == Reparent(old(pages), cs, q)
    {
      for i := 0 to |cs|
        invariant pages == Reparent(old(pages), cs[..i], q)
      {
        var c := cs[i];
        assert c in cs;
        pages := pages[c := pages[c].(parent := q)];
        assert cs[..i + 1] == cs[..i] + [c];
      }
      assert cs[..|cs|] == cs;
    }

    method SetPage(ids: seq<SeqId>, q: PageId)
      requires forall id :: id in ids ==> id in seq2page
      modifies this`seq2page
      ensures seq2page == Repoint(old(seq2page), ids, q)
    {
      for i := 0 to |ids|
        invariant seq2page == Repoint(old(seq2page), ids[..i], q)
      {
        var id := ids[i];
        assert id in ids;
        seq2page := seq2page[id := q];
        assert ids[..i + 1] == ids[..i] + [id];
      }
      assert ids[..|ids|] == ids;
    }

    /** Joins a page with its only child. No stored sequence changes. */
    method MergePage(p: PageId)
      requires Valid() && p in pages && Mergeable(pages, p)
      modifies this
      ensures Valid() && Stored() == old(Stored())
      ensures pages == MergePages(old(pages), p)
      ensures text == MergeTexts(old(pages), old(text), p)
    {
      MergeableCanMerge(pages, text, seq2page, p);
      MergeKeeps(pages, text, seq2page, p);
      var c := pages[p].children[0];
      PoolGives(pages, MergePages(pages, p), freeIndices, poolSize, c);
      var child := pages[c];
      assert Down(pages, c) && Own(pages, seq2page, c);
      SetParent(child.children, p);
      pages := pages[p := Page(pages[p].parent, child.children, pages[p].tokens + child.tokens, child.ids)];
      SetPage(child.ids, p);
      pages := pages - {c};
      text := text[p := text[c]] - {c};
      Free(c);
    }

    method MergeIfPossible(p: PageId)
      requires Valid() && p in pages
      modifies this
      ensures Valid() && Stored() == old(Stored())
      ensures pages == if Mergeable(old(pages), p) then MergePages(old(pages), p) else old(pages)
    {
      if Mergeable(pages, p) {
        MergePage(p);
      }
    }

    /** Cuts page p after k tokens; the cut-off part, the children and the ids move to page f. */
    method CutPage(p: PageId, k: nat) returns (f: PageId)
      requires Valid() && p in pages && p != ROOT && 0 < k < |pages[p].tokens| <= |text[p]|
      modifies this
      ensures Valid() && Stored() == old(Stored())
      ensures f !in old(pages) && f != NULL && pages == SplitPages(old(pages), p, k, f)
      ensures text == SplitTexts(old(pages), old(text), p, k, f)
    {
      f := Allocate();
      assert Up(pages, text, p);
      SplitKeeps(pages, text, seq2page, p, k, f);
      PoolTakes(pages, SplitPages(pages, p, k, f), freeIndices, poolSize, f);
      assert Down(pages, p) && Own(pages, seq2page, p);
      text := SplitTexts(pages, text, p, k, f);
      MoveTail(p, k, f);
    }

    /** The tokens from k on, the children and the ids of page p move to page f below it. */
    method MoveTail(p: PageId, k: nat, f: PageId)
      requires p in pages && k <= |pages[p].tokens|
      requires forall c :: c in pages[p].children ==> c in pages
      requires forall id :: id in pages[p].ids ==> id in seq2page
      modifies this`pages, this`seq2page
      ensures pages == SplitPages(old(pages), p, k, f)
      ensures seq2page == Repoint(old(seq2page), old(pages)[p].ids, f)
    {
      var page := pages[p];
      SetParent(page.children, f);
      pages := pages[f := Page(p, page.children, page.tokens[k..], page.ids)];
      SetPage(page.ids, f);
      pages := pages[p := Page(page.parent, [f], page.tokens[..k], [])];
    }

    method MergeChild(f: PageId, ghost p: PageId, ghost t: seq<Token>, ghost tok: Token)
      requires Valid() && Boundary(pages, text, p, t, tok) && f in pages && pages[p].children == [f]
      modifies this
      ensures Valid() && Stored() == old(Stored()) && Boundary(pages, text, p, t, tok)
      ensures forall q :: q in old(pages) && |old(text)[q]| <= |old(text)[f]| ==> q in pages
    {
      if Mergeable(pages, f) {
        MergeableCanMerge(pages, text, seq2page, f);
        MergeBelow(pages, text, seq2page, p, f, t, tok);
        MergePage(f);
      }
    }

    method MergeParent(p: PageId, ghost t: seq<Token>, ghost tok: Token) returns (r: PageId)
      requires Valid() && Boundary(pages, text, p, t, tok)
      modifies this
      ensures Valid() && Stored() == old(Stored()) && Boundary(pages, text, r, t, tok)
      ensures forall q :: q in old(pages) && q != p ==> q in pages
    {
      r := pages[p].parent;
      assert Up(pages, text, p);
      if Mergeable(pages, r) {
        MergeableCanMerge(pages, text, seq2page, r);
        MergeAbove(pages, text, seq2page, r, p, t, tok);
        MergePage(r);
      } else {
        r := p;
      }
    }

    /**
     Makes position k inside page p a page boundary and returns the page that ends there.
     Neighbouring pages may be merged on the way. No stored sequence changes.
     */
    method SplitPage(p: PageId, k: nat) returns (r: PageId)
      requires Valid() && p in pages && p != ROOT && 0 < k < |pages[p].tokens| <= |text[p]|
      modifies this
      ensures Valid() && Stored() == old(Stored())
      ensures Boundary(pages, text, r, old(text[p][..|text[p]| - |pages[p].tokens| + k]), old(pages[p].tokens[k]))
      ensures forall q :: q in old(pages) && |old(text)[q]| < |old(text)[p]| ==> q in pages
    {
      ghost var t, tok := text[p][..|text[p]| - |pages[p].tokens| + k], pages[p].tokens[k];
      assert Up(pages, text, p);
      var f := CutPage(p, k);
      SplitBoundary(old(pages), old(text), old(seq2page), p, k, f);
      MergeChild(f, p, t, tok);
      r := MergeParent(p, t, tok);
    }

    // -------------------------------------------------------------- matching

    method FindChild(p: PageId, tok: Token) returns (c: PageId)
      requires Sound() && p in pages
      ensures c == NULL ==> NoChildStarts(pages, p, tok)
      ensures c != NULL ==> c in pages[p].children && c in pages && pages[c].tokens != [] && pages[c].tokens[0] == tok
    {
      var list := pages[p].children;
      assert Down(pages, p);
      for i := 0 to |list|
        invariant forall x :: x in list[..i] && x in pages && pages[x].tokens != [] ==> pages[x].tokens[0] != tok
      {
        c := list[i];
        assert c in list;
        assert Up(pages, text, c);
        assert list[..i + 1] == list[..i] + [c];
        if pages[c].tokens[0] == tok {
          return;
        }
      }
      assert list[..|list|] == list;
      c := NULL;
    }

    /** How many tokens of the page agree with toks. */
    method MatchInPage(p: PageId, toks: seq<Token>) returns (n: nat)
      requires p in pages
      ensures n == Lcp(pages[p].tokens, toks)
    {
      var own := pages[p].tokens;
      var most := if |own| <= |toks| then |own| else |toks|;
      n := 0;
      while n < most && own[n] == toks[n]
        invariant n <= most && own[..n] == toks[..n]
      {
        n := n + 1;
      }
      LcpUnique(own, toks, n);
    }

    /** Walks down from page s as long as toks allows; each round consumes at least one token. */
    method MatchSequence(s: PageId, toks: seq<Token>) returns (page: PageId, offset: nat, inPage: nat)
      requires Sound() && s in pages
      ensures StopsAt(pages, text, s, toks, page, offset, inPage)
    {
      page, offset := s, 0;
      assert Up(pages, text, s);
      while offset < |toks|
        invariant Reads(pages, text, s, toks, page, offset)
      {
        var c := FindChild(page, toks[offset]);
        if c == NULL {
          ReadsStops(pages, text, s, toks, page, offset);
          return page, offset, |pages[page].tokens|;
        }
        inPage := MatchInPage(c, toks[offset..]);
        ReadsOn(pages, text, s, toks, page, offset, c, inPage);
        offset := offset + inPage;
        page := c;
        if inPage < |pages[c].tokens| {
          return;
        }
      }
      ReadsStops(pages, text, s, toks, page, offset);
      inPage := |pages[page].tokens|;
    }

    // -------------------------------------------------------------- reading

    function HasSequence(id: SeqId): (r: bool)
      requires Sound()
      reads this
      ensures r <==> id in Stored()
    {
      StoredKeys(pages, text, seq2page);
      id in seq2page
    }

    method GetSequenceLength(id: SeqId) returns (n: nat)
      requires Sound() && id in Stored()
      ensures n == |Stored()[id]|
    {
      assert Home(pages, seq2page, id);
      var page := seq2page[id];
      n := 0;
      while page != NULL
        invariant page == NULL || page in pages
        invariant n + (if page == NULL then 0 else |text[page]|) == |text[seq2page[id]]|
        decreases if page == NULL then 0 else 1 + |text[page]|
      {
        assert Up(pages, text, page);
        n := n + |pages[page].tokens|;
        page := pages[page].parent;
      }
    }

    static method CopyInto(output: array<Token>, offset: nat, own: seq<Token>)
      requires offset + |own| <= output.Length
      modifies output
      ensures output[..] == old(output[..offset]) + own + old(output[offset + |own|..])
    {
      for i := 0 to |own|
        invariant forall j :: 0 <= j < output.Length ==>
                    output[j] == if offset <= j < offset + i then own[j - offset] else old(output[j])
      {
        output[offset + i] := own[i];
      }
      assert output[..] == old(output[..offset]) + own + old(output[offset + |own|..]);
    }

    /** Walks from the page of the sequence up to the root and fills the result from the back. */
    method GetSequence(id: SeqId) returns (r: seq<Token>)
      requires Sound() && id in Stored()
      ensures r == Stored()[id]
    {
      var length := GetSequenceLength(id);
      var output := new Token[length];
      assert Home(pages, seq2page, id);
      var page, offset := seq2page[id], length;
      ghost var whole := Stored()[id];
      while page != NULL
        invariant page == NULL || page in pages
        invariant 0 <= offset <= length == |whole|
        invariant if page == NULL then offset == 0 else text[page] == whole[..offset]
        invariant output[..][offset..] == whole[offset..]
        decreases if page == NULL then 0 else 1 + |text[page]|
      {
        assert Up(pages, text, page);
        var own := pages[page].tokens;
        assert |text[page]| == offset;
        offset := offset - |own|;
        CopyInto(output, offset, own);
        assert whole[offset..] == own + whole[offset + |own|..];
        page := pages[page].parent;
      }
      r := output[..];
    }

    // -------------------------------------------------------------- sequence ids

    method PlaceSequence(id: SeqId, p: PageId)
      requires Sound() && Ended(pages, p) && p in pages && id !in seq2page
      modifies this`pages, this`seq2page
      ensures Valid() && Stored() == old(Stored())[id := text[p]]
      ensures pages.Keys == old(pages).Keys && seq2page == old(seq2page)[id := p]
    {
      AddIdKeeps(pages, text, seq2page, p, id);
      PoolSame(pages, pages[p := pages[p].(ids := [id] + pages[p].ids)], freeIndices, poolSize);
      pages := pages[p := pages[p].(ids := [id] + pages[p].ids)];
      seq2page := seq2page[id := p];
    }

    /** Takes the sequence out of its page, which may leave a leaf without a sequence behind. */
    method PopSequence(id: SeqId) returns (p: PageId)
      requires Valid() && id in Stored()
      modifies this`pages, this`seq2page
      ensures Sound() && p in pages && Ended(pages, p) && id !in seq2page
      ensures old(Stored())[id] == text[p] && Stored() == old(Stored()) - {id}
    {
      assert Home(pages, seq2page, id);
      PopIdKeeps(pages, text, seq2page, id);
      p := seq2page[id];
      PoolSame(pages, pages[p := pages[p].(ids := Without(pages[p].ids, id))], freeIndices, poolSize);
      pages := pages[p := pages[p].(ids := Without(pages[p].ids, id))];
      seq2page := seq2page - {id};
    }

    /** Unhooks a leaf in which no sequence ends and frees its page. */
    method RemovePage(p: PageId)
      requires Sound() && p in pages && p != ROOT && pages[p].ids == [] && pages[p].children == [] && Ended(pages, p)
      modifies this
      ensures Sound() && Stored() == old(Stored()) && seq2page == old(seq2page)
      ensures var q := old(pages[p].parent);
              q in pages && Ended(pages, q) && q in text && q in old(text) && text[q] == old(text)[q]
    {
      assert Up(pages, text, p);
      PruneKeeps(pages, text, seq2page, p);
      PoolGives(pages, PrunePages(pages, p), freeIndices, poolSize, p);
      var q := pages[p].parent;
      pages := pages[q := pages[q].(children := Without(pages[q].children, p))] - {p};
      text := text - {p};
      Free(p);
    }

    // -------------------------------------------------------------- operations

    /** Stores the empty sequence at the root. */
    method AddSequence(id: SeqId)
      requires Valid() && id !in Stored()
      modifies this
      ensures Valid() && Stored() == old(Stored())[id := []]
    {
      assert Up(pages, text, ROOT);
      EndedAnywhere(pages, ROOT);
      StoredKeys(pages, text, seq2page);
      PlaceSequence(id, ROOT);
    }

    method RemoveSequence(id: SeqId)
      requires Valid() && id in Stored()
      modifies this
      ensures Valid() && Stored() == old(Stored()) - {id}
    {
      var page := PopSequence(id);
      while pages[page].parent != NULL && pages[page].ids == [] && pages[page].children == []
        invariant Sound() && page in pages && Ended(pages, page)
        invariant Stored() == old(Stored()) - {id}
        decreases |text[page]|
      {
        assert Up(pages, text, page);
        var parent := pages[page].parent;
        RemovePage(page);
        page := parent;
      }
      assert Up(pages, text, page);
      assert Valid() by {
        forall p | p in pages ensures EndsSequence(pages, p) {
          assert p != page ==> EndsSequence(pages, p);
        }
      }
      MergeIfPossible(page);
    }

    /** The new sequence is a copy of the first `offset` tokens of the parent sequence. */
    method ForkSequence(id: SeqId, parentId: SeqId, offset: nat)
      requires Valid() && id !in Stored() && parentId in Stored()
      requires 0 < offset <= |Stored()[parentId]|
      modifies this
      ensures Valid()
      ensures Stored() == old(Stored())[id := old(Stored())[parentId][..offset]]
    {
      var length := GetSequenceLength(parentId);
      assert Home(pages, seq2page, parentId);
      var page := seq2page[parentId];
      ghost var whole := Stored()[parentId];
      while offset <= length - |pages[page].tokens|
        invariant page in pages && Up(pages, text, page)
        invariant 0 < offset <= length <= |whole| && text[page] == whole[..length]
        decreases length
      {
        length := length - |pages[page].tokens|;
        page := pages[page].parent;
        assert Up(pages, text, page);
      }
      if offset < length {
        page := SplitPage(page, offset + |pages[page].tokens| - length);
      }
      assert text[page] == whole[..offset];
      EndedAnywhere(pages, page);
      StoredKeys(pages, text, seq2page);
      PlaceSequence(id, page);
    }

    /** Fills up the leaf `page` as far as it goes. */
    method ExtendInPage(page: PageId, toks: seq<Token>, offset: nat) returns (offset': nat)
      requires Sound() && Ended(pages, page) && page in pages && offset < |toks|
      requires pages[page].ids == [] && pages[page].children == [] && Capacity(page) > |pages[page].tokens|
      modifies this
      ensures Sound() && Ended(pages, page) && Stored() == old(Stored()) && seq2page == old(seq2page)
      ensures pages.Keys == old(pages).Keys && pages[page].children == []
      ensures offset <= offset' <= |toks| && text[page] == old(text[page]) + toks[offset..offset']
      ensures offset' == |toks| || |pages[page].tokens| == 64
    {
      var room := Capacity(page) - |pages[page].tokens|;
      var n := if room <= |toks| - offset then room else |toks| - offset;
      offset' := offset + n;
      var own := pages[page].tokens + toks[offset..offset'];
      assert Up(pages, text, page);
      ResizeKeeps(pages, text, seq2page, page, own);
      PoolSame(pages, pages[page := pages[page].(tokens := own)], freeIndices, poolSize);
      text := text[page := text[pages[page].parent] + own];
      pages := pages[page := pages[page].(tokens := own)];
    }

    /** Hangs one more page below `page` and fills it. */
    method ExtendByPage(page: PageId, toks: seq<Token>, offset: nat) returns (f: PageId, offset': nat)
      requires Sound() && Ended(pages, page) && page in pages && offset < |toks|
      requires NoChildStarts(pages, page, toks[offset])
      modifies this
      ensures Sound() && f in pages && Ended(pages, f) && Stored() == old(Stored()) && seq2page == old(seq2page)
      ensures old(pages).Keys <= pages.Keys && pages[f].children == []
      ensures offset < offset' <= |toks| && text[f] == old(text[page]) + toks[offset..offset']
      ensures offset' == |toks| || |pages[f].tokens| == 64
    {
      f := Allocate();
      var n := if PAGE_CAPACITY <= |toks| - offset then PAGE_CAPACITY else |toks| - offset;
      offset' := offset + n;
      GraftKeeps(pages, text, seq2page, page, f, toks[offset..offset']);
      PoolTakes(pages, GraftPages(pages, page, f, toks[offset..offset']), freeIndices, poolSize, f);
      text := text[f := text[page] + toks[offset..offset']];
      pages := pages[page := pages[page].(children := [f] + pages[page].children)]
                    [f := Page(page, [], toks[offset..offset'], [])];
    }

    /** Stores the tokens from `offset` on below `page0` and returns the page where they end. */
    method ExtendTail(page0: PageId, toks: seq<Token>, offset0: nat) returns (page: PageId)
      requires Sound() && Ended(pages, page0) && page0 in pages && offset0 <= |toks|
      requires offset0 < |toks| ==> NoChildStarts(pages, page0, toks[offset0])
      modifies this
      ensures Sound() && page in pages && Ended(pages, page) && Stored() == old(Stored()) && seq2page == old(seq2page)
      ensures old(pages).Keys <= pages.Keys
      ensures text[page] == old(text[page0]) + toks[offset0..]
    {
      page := page0;
      var offset := offset0;
      if offset < |toks| && pages[page].ids == [] && pages[page].children == []
         && Capacity(page) > |pages[page].tokens| {
        offset := ExtendInPage(page, toks, offset);
      }
      while offset < |toks|
        invariant Sound() && page in pages && Ended(pages, page) && Stored() == old(Stored())
        invariant seq2page == old(seq2page) && old(pages).Keys <= pages.Keys
        invariant offset0 <= offset <= |toks| && text[page] == old(text[page0]) + toks[offset0..offset]
        invariant offset < |toks| ==> NoChildStarts(pages, page, toks[offset])
      {
        ghost var before := offset;
        page, offset := ExtendByPage(page, toks, offset);
        TextGrows(old(text[page0]), toks, offset0, before, offset);
      }
    }

    /** Finds or makes the page that spells `toks` after the text of page `original`. */
    method ExtendFrom(original: PageId, toks: seq<Token>) returns (page: PageId)
      requires Sound() && original in pages && Ended(pages, original)
      modifies this
      ensures Sound() && page in pages && Ended(pages, page) && Stored() == old(Stored())
      ensures original in pages && text[page] == old(text[original]) + toks
    {
      var offset, inPage;
      page, offset, inPage := MatchSequence(original, toks);
      if page != original {
        EndedNowhere(pages, original);
      }
      ghost var t := text[original] + toks[..offset];
      if inPage < |pages[page].tokens| {
        page := SplitPage(page, inPage);
      }
      if page != original {
        EndedAnywhere(pages, page);
      }
      page := ExtendTail(page, toks, offset);
      assert t + toks[offset..] == old(text[original]) + toks;
    }

    /** Appends the tokens to the sequence; the other sequences stay as they are. */
    method ExtendSequence(id: SeqId, toks: seq<Token>)
      requires Valid() && id in Stored()
      modifies this
      ensures Valid()
      ensures Stored() == old(Stored())[id := old(Stored())[id] + toks]
    {
      var original := PopSequence(id);
      var page := ExtendFrom(original, toks);
      StoredKeys(pages, text, seq2page);
      PlaceSequence(id, page);
      MergeIfPossible(original);
      assert Stored() == old(Stored())[id := old(Stored())[id] + toks];
    }

    /** One round of the roll back: leaves a page whose tokens are all dropped. */
    method RollBackPage(page: PageId, num: nat) returns (num': nat, parent: PageId)
      requires Sound() && page in pages && Ended(pages, page) && |pages[page].tokens| <= num < |text[page]|
      modifies this
      ensures Sound() && parent in pages && Ended(pages, parent)
      ensures Stored() == old(Stored()) && seq2page == old(seq2page)
      ensures num' < |text[parent]| < |old(text[page])|
      ensures text[parent][..|text[parent]| - num'] == old(text[page][..|text[page]| - num])
    {
      assert Up(pages, text, page);
      num' := num - |pages[page].tokens|;
      parent := pages[page].parent;
      if pages[page].ids == [] && pages[page].children == [] {
        RemovePage(page);
      } else {
        EndedNowhere(pages, page);
        EndedAnywhere(pages, parent);
      }
    }

    /** Drops num tokens at the end of a leaf in which no sequence ends. */
    method ShrinkPage(page: PageId, num: nat)
      requires Sound() && page in pages && page != ROOT && Ended(pages, page)
      requires pages[page].ids == [] && pages[page].children == [] && num < |pages[page].tokens| <= |text[page]|
      modifies this
      ensures Sound() && page in pages && Ended(pages, page) && Stored() == old(Stored()) && seq2page == old(seq2page)
      ensures text[page] == old(text[page][..|text[page]| - num])
    {
      var own := pages[page].tokens[..|pages[page].tokens| - num];
      assert Up(pages, text, page);
      ResizeKeeps(pages, text, seq2page, page, own);
      PoolSame(pages, pages[page := pages[page].(tokens := own)], freeIndices, poolSize);
      text := text[page := text[pages[page].parent] + own];
      pages := pages[page := pages[page].(tokens := own)];
    }

    /** Finds or makes the page that ends num tokens before the end of `page`. */
    method RollBackInPage(page: PageId, num: nat) returns (r: PageId)
      requires Sound() && page in pages && Ended(pages, page) && num < |pages[page].tokens| <= |text[page]|
      modifies this
      ensures Sound() && r in pages && Ended(pages, r) && Stored() == old(Stored())
      ensures text[r] == old(text[page][..|text[page]| - num])
    {
      r := page;
      assert Up(pages, text, page);
      if pages[page].ids == [] && pages[page].children == [] {
        ShrinkPage(page, num);
      } else {
        EndedNowhere(pages, page);
        if num > 0 {
          r := SplitPage(page, |pages[page].tokens| - num);
        }
        EndedAnywhere(pages, r);
      }
    }

    /** Finds or makes the page that ends n tokens before the end of page0; page by page, upwards. */
    method RollBackFrom(page0: PageId, n: nat) returns (page: PageId)
      requires Sound() && page0 in pages && Ended(pages, page0) && n < |text[page0]|
      modifies this
      ensures Sound() && page in pages && Ended(pages, page) && Stored() == old(Stored())
      ensures text[page] == old(text[page0][..|text[page0]| - n])
    {
      page := page0;
      var num := n;
      while |pages[page].tokens| <= num
        invariant Sound() && page in pages && Ended(pages, page) && Stored() == old(Stored())
        invariant 0 <= num < |text[page]|
        invariant text[page][..|text[page]| - num] == old(text[page0][..|text[page0]| - n])
        decreases |text[page]|
      {
        num, page := RollBackPage(page, num);
      }
      assert Up(pages, text, page);
      page := RollBackInPage(page, num);
    }

    /** Drops the last n tokens of the sequence; the other sequences stay as they are. */
    method RollBackSequence(id: SeqId, n: nat)
      requires Valid() && id in Stored()
      requires 0 < n <= |Stored()[id]|
      modifies this
      ensures Valid()
      ensures Stored() == old(Stored())[id := old(Stored())[id][..|old(Stored())[id]| - n]]
    {
      var length := GetSequenceLength(id);
      ghost var kept := Stored()[id][..|Stored()[id]| - n];
      if n == length {
        RemoveSequence(id);
        AddSequence(id);
        return;
      }
      var page := PopSequence(id);
      page := RollBackFrom(page, n);
      StoredKeys(pages, text, seq2page);
      PlaceSequence(id, page);
      assert Stored() == old(Stored())[id := kept];
    }

    // -------------------------------------------------------------- prefix lookup

    /** Visits a page, then its further siblings, then its children. */
    method Iterate(list: seq<PageId>) returns (out: seq<SeqId>)
      requires Sound() && Siblings(pages, list)
      ensures Enumerates(out, seq2page, Under(pages, text, list))
      decreases Under(pages, text, list)
    {
      if list == [] {
        return [];
      }
      var c := list[0];
      UnderHead(pages, text, list);
      UnderChildren(pages, text, c);
      EnumeratesLocal(pages, seq2page, c);
      assert c in Under(pages, text, list) && c !in Under(pages, text, list[1..]);
      var siblings := Iterate(list[1..]);
      var below := Iterate(pages[c].children);
      EnumeratesConcat(pages[c].ids, siblings, seq2page, {c}, Under(pages, text, list[1..]));
      EnumeratesConcat(pages[c].ids + siblings, below, seq2page,
                       {c} + Under(pages, text, list[1..]), Under(pages, text, pages[c].children));
      out := pages[c].ids + siblings + below;
      assert Under(pages, text, list)
          == {c} + Under(pages, text, list[1..]) + Under(pages, text, pages[c].children);
    }

    method FindAllChildSequence(p: PageId) returns (out: seq<SeqId>)
      requires Sound() && p in pages
      ensures Enumerates(out, seq2page, Below(pages, text, p))
    {
      UnderChildren(pages, text, p);
      EnumeratesLocal(pages, seq2page, p);
      var below := Iterate(pages[p].children);
      EnumeratesConcat(pages[p].ids, below, seq2page, {p}, Under(pages, text, pages[p].children));
      out := pages[p].ids + below;
    }

    /** The longest common prefix with any stored sequence, and the sequences that attain it. */
    method MatchPrefix(toks: seq<Token>) returns (offset: nat, ids: seq<SeqId>)
      requires Valid()
      ensures offset <= |toks|
      ensures forall id :: id in Stored() ==> Lcp(toks, Stored()[id]) <= offset
      ensures offset == 0 ==> ids == []
      ensures offset > 0 ==>
                && ids != [] && NoDup(ids)
                && forall id :: id in ids <==> id in Stored() && Lcp(toks, Stored()[id]) == offset
    {
      var page, inPage;
      page, offset, inPage := MatchSequence(ROOT, toks);
      StoredKeys(pages, text, seq2page);
      forall id | id in Stored() ensures seq2page[id] in pages && Lcp(toks, Stored()[id]) <= offset {
        assert Home(pages, seq2page, id);
        StopIsLongest(pages, text, toks, page, offset, inPage, seq2page[id]);
      }
      if offset == 0 {
        return 0, [];
      }
      ids := FindAllChildSequence(page);
      ghost var some := SequenceBelow(pages, text, seq2page, page);
      assert some in ids;
      forall id | id in Stored()
        ensures id in ids <==> Lcp(toks, Stored()[id]) == offset {
        assert Home(pages, seq2page, id);
        StopIsLongest(pages, text, toks, page, offset, inPage, seq2page[id]);
      }
    }
  }

  /** With every leaf carrying a sequence, any page may serve as the exception. */
  lemma EndedAnywhere(ps: Pages, p: PageId)
    ensures Ended(ps, NULL) && NULL !in ps ==> Ended(ps, p)
  {
    if Ended(ps, NULL) && NULL !in ps {
      forall q | q in ps ensures EndsSequence(ps, q) {
      }
    }
  }

  /** An exception that carries a sequence, or is no leaf, is none. */
  lemma EndedNowhere(ps: Pages, p: PageId)
    requires p in ps && Ended(ps, p) && (p == ROOT || ps[p].children != [] || ps[p].ids != [])
    ensures Ended(ps, NULL)
  {
    forall q | q in ps ensures EndsSequence(ps, q) {
      assert q != p ==> EndsSequence(ps, q);
    }
  }

  // ---------------------------------------------------------------- whole runs

  datatype Op =
    | Add(id: SeqId)
    | Fork(id: SeqId, parentId: SeqId, offset: nat)
    | Extend(id: SeqId, toks: seq<Token>)
    | RollBack(id: SeqId, n: nat)
    | Remove(id: SeqId)

  /** The calls that the tree accepts, in terms of the plain map alone. */
  ghost predicate Accepts(m: map<SeqId, seq<Token>>, op: Op) {
    match op
    case Add(id) => id !in m
    case Fork(id, parentId, offset) => id !in m && parentId in m && 0 < offset <= |m[parentId]|
    case Extend(id, toks) => id in m
    case RollBack(id, n) => id in m && 0 < n <= |m[id]|
    case Remove(id) => id in m
  }

  /** What each call does to the plain map. */
  ghost function Apply(m: map<SeqId, seq<Token>>, op: Op): map<SeqId, seq<Token>>
    requires Accepts(m, op)
  {
    match op
    case Add(id) => m[id := []]
    case Fork(id, parentId, offset) => m[id := m[parentId][..offset]]
    case Extend(id, toks) => m[id := m[id] + toks]
    case RollBack(id, n) => m[id := m[id][..|m[id]| - n]]
    case Remove(id) => m - {id}
  }

  ghost predicate AcceptsAll(m: map<SeqId, seq<Token>>, ops: seq<Op>)
    decreases |ops|
  {
    ops != [] ==> Accepts(m, ops[0]) && AcceptsAll(Apply(m, ops[0]), ops[1..])
  }

  ghost function ApplyAll(m: map<SeqId, seq<Token>>, ops: seq<Op>): map<SeqId, seq<Token>>
    requires AcceptsAll(m, ops)
    decreases |ops|
  {
    if ops == [] then m else ApplyAll(Apply(m, ops[0]), ops[1..])
  }

  method Perform(tree: PagedRadixTree, op: Op)
    requires tree.Valid() && Accepts(tree.Stored(), op)
    modifies tree
    ensures tree.Valid() && tree.Stored() == Apply(old(tree.Stored()), op)
  {
    match op
    case Add(id) => tree.AddSequence(id);
    case Fork(id, parentId, offset) => tree.ForkSequence(id, parentId, offset);
    case Extend(id, toks) => tree.ExtendSequence(id, toks);
    case RollBack(id, n) => tree.RollBackSequence(id, n);
    case Remove(id) => tree.RemoveSequence(id);
  }

  /**
   Any accepted run, from a fresh tree on: the tree stands for the map that the same run builds,
   stays well formed, and uses exactly the pages that the root reaches.
   */
  method Run(ops: seq<Op>) returns (tree: PagedRadixTree)
    requires AcceptsAll(map[], ops)
    ensures fresh(tree) && tree.Valid() && tree.Stored() == ApplyAll(map[], ops)
    ensures forall p :: p in tree.pages <==> exists path :: Walk(tree.pages, path, p)
    ensures tree.Stored() == map[] ==> forall p :: p in tree.pages ==> p == ROOT
  {
    tree := new PagedRadixTree();
    for i := 0 to |ops|
      invariant fresh(tree) && tree.Valid() && AcceptsAll(tree.Stored(), ops[i..])
      invariant ApplyAll(tree.Stored(), ops[i..]) == ApplyAll(map[], ops)
    {
      assert ops[i..][1..] == ops[i + 1..];
      Perform(tree, ops[i]);
    }
    PagesNeedSequences(tree.pages, tree.text, tree.seq2page);
    forall p ensures p in tree.pages <==> exists path :: Walk(tree.pages, path, p) {
      if p in tree.pages {
        ghost var path := UsedIsReachable(tree.pages, tree.text, p);
      }
      forall path | Walk(tree.pages, path, p) ensures p in tree.pages {
        ReachableIsUsed(tree.pages, tree.text, path, p);
      }
    }
  }
}
