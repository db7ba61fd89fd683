/**
 The structural steps of the radix tree on plain values: split, merge, graft, prune, resize, and
 the bookkeeping of sequence ids. Each lemma says that a step keeps the tree well formed.
 */
module RadixSteps {
  import opened Lists
  import opened Tokens
  import opened RadixPages

  /** Every page of cs gets parent q. */
  function Reparent(ps: Pages, cs: seq<PageId>, q: PageId): (r: Pages)
    ensures r.Keys == ps.Keys
  {
    map x | x in ps :: if x in cs then ps[x].(parent := q) else ps[x]
  }

  /** Every id of ids is now stored at page q. */
  function Repoint(ow: Owner, ids: seq<SeqId>, q: PageId): (r: Owner)
    ensures r.Keys == ow.Keys
  {
    map id | id in ow :: if id in ids then q else ow[id]
  }

  // ---------------------------------------------------------------- split

  function SplitPages(ps: Pages, p: PageId, k: nat, f: PageId): Pages
    requires p in ps && k <= |ps[p].tokens|
  {
    var g := ps[p];
    Reparent(ps, g.children, f)
      [f := Page(p, g.children, g.tokens[k..], g.ids)]
      [p := Page(g.parent, [f], g.tokens[..k], [])]
  }

  ghost function SplitTexts(ps: Pages, tx: Texts, p: PageId, k: nat, f: PageId): Texts
    requires p in ps && p in tx && k <= |ps[p].tokens| <= |tx[p]|
  {
    tx[f := tx[p]][p := tx[p][..|tx[p]| - |ps[p].tokens| + k]]
  }

  ghost predicate CanSplit(ps: Pages, tx: Texts, ow: Owner, p: PageId, k: nat, f: PageId) {
    && Inv(ps, tx, ow) && p in ps && p != ROOT && 0 < k < |ps[p].tokens| && f !in ps && f != NULL
    && Up(ps, tx, p)
  }

  lemma SplitUp(ps: Pages, tx: Texts, ow: Owner, p: PageId, k: nat, f: PageId)
    requires CanSplit(ps, tx, ow, p, k, f)
    ensures var ps' := SplitPages(ps, p, k, f);
            forall x {:trigger Up(ps', SplitTexts(ps, tx, p, k, f), x)} ::
              x in ps' ==> Up(ps', SplitTexts(ps, tx, p, k, f), x)
  {
    var ps', tx' := SplitPages(ps, p, k, f), SplitTexts(ps, tx, p, k, f);
    assert Down(ps, p);
    forall x | x in ps' ensures Up(ps', tx', x) {
      if x == f {
        assert tx[p] == tx'[p] + ps[p].tokens[k..];
      } else {
        assert Up(ps, tx, x);
        if x != ROOT && x != p && x !in ps[p].children {
          assert Down(ps, ps[x].parent);
          assert ps[x].parent != p;
        }
      }
    }
  }

  lemma SplitDown(ps: Pages, tx: Texts, ow: Owner, p: PageId, k: nat, f: PageId)
    requires CanSplit(ps, tx, ow, p, k, f)
    ensures var ps' := SplitPages(ps, p, k, f); forall x {:trigger Down(ps', x)} :: x in ps' ==> Down(ps', x)
  {
    var ps' := SplitPages(ps, p, k, f);
    assert Down(ps, p);
    forall x | x in ps' ensures Down(ps', x) {
      if x != f && x != p {
        assert Down(ps, x);
      }
    }
  }

  lemma SplitApart(ps: Pages, tx: Texts, ow: Owner, p: PageId, k: nat, f: PageId)
    requires CanSplit(ps, tx, ow, p, k, f)
    ensures var ps' := SplitPages(ps, p, k, f);
            forall x, y {:trigger Apart(ps', x, y)} :: x in ps' && y in ps' ==> Apart(ps', x, y)
  {
    var ps' := SplitPages(ps, p, k, f);
    assert Down(ps, p);
    forall x, y | x in ps' && y in ps' ensures Apart(ps', x, y) {
      if x != f && y != f {
        assert Apart(ps, x, y);
        assert Up(ps, tx, x) && Up(ps, tx, y);
      } else {
        var z := if x == f then y else x;
        if z != f {
          assert Up(ps, tx, z);
        }
      }
    }
  }

  lemma SplitOwned(ps: Pages, tx: Texts, ow: Owner, p: PageId, k: nat, f: PageId)
    requires CanSplit(ps, tx, ow, p, k, f)
    ensures Owned(SplitPages(ps, p, k, f), Repoint(ow, ps[p].ids, f))
  {
    var ps', ow' := SplitPages(ps, p, k, f), Repoint(ow, ps[p].ids, f);
    assert Own(ps, ow, p);
    forall x | x in ps' ensures Own(ps', ow', x) {
      if x != f && x != p {
        assert Own(ps, ow, x);
      }
    }
    forall id | id in ow' ensures Home(ps', ow', id) {
      assert Home(ps, ow, id);
    }
  }

  lemma SplitKeeps(ps: Pages, tx: Texts, ow: Owner, p: PageId, k: nat, f: PageId)
    requires CanSplit(ps, tx, ow, p, k, f) && Ended(ps, NULL)
    ensures Inv(SplitPages(ps, p, k, f), SplitTexts(ps, tx, p, k, f), Repoint(ow, ps[p].ids, f))
    ensures Ended(SplitPages(ps, p, k, f), NULL)
    ensures Contents(Repoint(ow, ps[p].ids, f), SplitTexts(ps, tx, p, k, f)) == Contents(ow, tx)
  {
    SplitUp(ps, tx, ow, p, k, f);
    SplitDown(ps, tx, ow, p, k, f);
    SplitApart(ps, tx, ow, p, k, f);
    SplitOwned(ps, tx, ow, p, k, f);
    var ps' := SplitPages(ps, p, k, f);
    forall x | x in ps' ensures EndsSequence(ps', x) {
      assert EndsSequence(ps, if x == f then p else x);
    }
    forall id | id in ow ensures (id in ps[p].ids <==> ow[id] == p) && ow[id] in tx && ow[id] != f {
      assert Home(ps, ow, id) && Own(ps, ow, p);
    }
  }

  // ---------------------------------------------------------------- merge

  function Mergeable(ps: Pages, p: PageId): bool
    requires p in ps
  {
    && ps[p].ids == []
    && |ps[p].children| == 1
    && ps[p].children[0] in ps
    && |ps[p].tokens| + |ps[ps[p].children[0]].tokens| <= Capacity(p)
  }

  function MergePages(ps: Pages, p: PageId): Pages
    requires p in ps && Mergeable(ps, p)
  {
    var c := ps[p].children[0];
    var g := ps[c];
    Reparent(ps, g.children, p)
      [p := Page(ps[p].parent, g.children, ps[p].tokens + g.tokens, g.ids)] - {c}
  }

  ghost function MergeTexts(ps: Pages, tx: Texts, p: PageId): Texts
    requires p in ps && Mergeable(ps, p) && ps[p].children[0] in tx
  {
    var c := ps[p].children[0];
    tx[p := tx[c]] - {c}
  }

  ghost predicate CanMerge(ps: Pages, tx: Texts, ow: Owner, p: PageId) {
    && Inv(ps, tx, ow) && p in ps && Mergeable(ps, p)
    && var c := ps[p].children[0];
    && c in tx && c != p && c != ROOT && p != ROOT && ps[c].parent == p && tx[c] == tx[p] + ps[c].tokens
    && Up(ps, tx, p) && Up(ps, tx, c)
  }

  lemma MergeableCanMerge(ps: Pages, tx: Texts, ow: Owner, p: PageId)
    requires Inv(ps, tx, ow) && p in ps && Mergeable(ps, p)
    ensures CanMerge(ps, tx, ow, p)
  {
    var c := ps[p].children[0];
    assert Down(ps, p) && c in ps[p].children;
    assert Up(ps, tx, p) && Up(ps, tx, c);
  }

  /** The joined page. */
  lemma MergeUpHere(ps: Pages, tx: Texts, ow: Owner, p: PageId)
    requires CanMerge(ps, tx, ow, p)
    ensures p in MergePages(ps, p) && Up(MergePages(ps, p), MergeTexts(ps, tx, p), p)
  {
    var ps', tx' := MergePages(ps, p), MergeTexts(ps, tx, p);
    var c, r := ps[p].children[0], ps[p].parent;
    assert Down(ps, r);
    assert r != c && r != p by {
      assert |tx[r]| < |tx[p]| < |tx[c]|;
    }
    assert ps'[p] == Page(r, ps[c].children, ps[p].tokens + ps[c].tokens, ps[c].ids) && tx'[p] == tx[c];
    assert ps'[r].children == ps[r].children && tx'[r] == tx[r];
    ConcatAssoc(tx[r], ps[p].tokens, ps[c].tokens);
  }

  /** The children that the joined page takes over. */
  lemma MergeUpBelow(ps: Pages, tx: Texts, ow: Owner, p: PageId, x: PageId)
    requires CanMerge(ps, tx, ow, p) && x in ps[ps[p].children[0]].children
    ensures x in MergePages(ps, p) && Up(MergePages(ps, p), MergeTexts(ps, tx, p), x)
  {
    var ps', tx' := MergePages(ps, p), MergeTexts(ps, tx, p);
    var c := ps[p].children[0];
    assert Down(ps, c) && Up(ps, tx, x);
    assert x != c && x != p by {
      assert |tx[p]| < |tx[c]| < |tx[x]|;
    }
    assert ps'[x] == ps[x].(parent := p) && tx'[x] == tx[x];
    assert ps'[p].children == ps[c].children && tx'[p] == tx[c];
  }

  /** Every other page. */
  lemma MergeUpElse(ps: Pages, tx: Texts, ow: Owner, p: PageId, x: PageId)
    requires CanMerge(ps, tx, ow, p) && x in ps && x != p && x !in ps[p].children
    requires x !in ps[ps[p].children[0]].children
    ensures x in MergePages(ps, p) && Up(MergePages(ps, p), MergeTexts(ps, tx, p), x)
  {
    var ps', tx' := MergePages(ps, p), MergeTexts(ps, tx, p);
    var c := ps[p].children[0];
    assert c in ps[p].children;
    assert Up(ps, tx, x);
    assert ps'[x] == ps[x] && tx'[x] == tx[x];
    if x != ROOT {
      var r := ps[x].parent;
      assert r != p && r != c;
      assert ps'[r].children == ps[r].children && tx'[r] == tx[r];
    }
  }

  lemma MergeUp(ps: Pages, tx: Texts, ow: Owner, p: PageId)
    requires CanMerge(ps, tx, ow, p)
    ensures var ps', tx' := MergePages(ps, p), MergeTexts(ps, tx, p);
            forall x {:trigger Up(ps', tx', x)} :: x in ps' ==> Up(ps', tx', x)
  {
    var ps', tx' := MergePages(ps, p), MergeTexts(ps, tx, p);
    var c := ps[p].children[0];
    assert ps[p].children == [c];
    forall x | x in ps' ensures Up(ps', tx', x) {
      if x == p {
        MergeUpHere(ps, tx, ow, p);
      } else if x in ps[c].children {
        MergeUpBelow(ps, tx, ow, p, x);
      } else {
        MergeUpElse(ps, tx, ow, p, x);
      }
    }
  }

  lemma MergeDown(ps: Pages, tx: Texts, ow: Owner, p: PageId)
    requires CanMerge(ps, tx, ow, p)
    ensures var ps' := MergePages(ps, p); forall x {:trigger Down(ps', x)} :: x in ps' ==> Down(ps', x)
  {
    var ps' := MergePages(ps, p);
    var c := ps[p].children[0];
    assert Down(ps, c) && Down(ps, p);
    assert c !in ps[c].children;
    forall x | x in ps' ensures Down(ps', x) {
      if x != p {
        assert Down(ps, x);
        assert c !in ps[x].children;
      }
    }
  }

  lemma MergeApart(ps: Pages, tx: Texts, ow: Owner, p: PageId)
    requires CanMerge(ps, tx, ow, p)
    ensures var ps' := MergePages(ps, p);
            forall x, y {:trigger Apart(ps', x, y)} :: x in ps' && y in ps' ==> Apart(ps', x, y)
  {
    var ps' := MergePages(ps, p);
    var c := ps[p].children[0];
    assert Down(ps, c) && Down(ps, p);
    forall x, y | x in ps' && y in ps' ensures Apart(ps', x, y) {
      assert Apart(ps, x, y);
      assert Up(ps, tx, x) && Up(ps, tx, y);
    }
  }

  lemma MergeOwned(ps: Pages, tx: Texts, ow: Owner, p: PageId)
    requires CanMerge(ps, tx, ow, p)
    ensures Owned(MergePages(ps, p), Repoint(ow, ps[ps[p].children[0]].ids, p))
  {
    var c := ps[p].children[0];
    var ps', ow' := MergePages(ps, p), Repoint(ow, ps[c].ids, p);
    assert Own(ps, ow, c);
    forall x | x in ps' ensures Own(ps', ow', x) {
      assert Own(ps, ow, x);
    }
    forall id | id in ow' ensures Home(ps', ow', id) {
      assert Home(ps, ow, id);
    }
  }

  lemma MergeKeeps(ps: Pages, tx: Texts, ow: Owner, p: PageId)
    requires CanMerge(ps, tx, ow, p) && Ended(ps, NULL)
    ensures Inv(MergePages(ps, p), MergeTexts(ps, tx, p), Repoint(ow, ps[ps[p].children[0]].ids, p))
    ensures Ended(MergePages(ps, p), NULL)
    ensures Contents(Repoint(ow, ps[ps[p].children[0]].ids, p), MergeTexts(ps, tx, p)) == Contents(ow, tx)
  {
    MergeUp(ps, tx, ow, p);
    MergeDown(ps, tx, ow, p);
    MergeApart(ps, tx, ow, p);
    MergeOwned(ps, tx, ow, p);
    var c := ps[p].children[0];
    var ps' := MergePages(ps, p);
    forall x | x in ps' ensures EndsSequence(ps', x) {
      assert EndsSequence(ps, if x == p then c else x);
    }
    forall id | id in ow ensures (id in ps[c].ids <==> ow[id] == c) && ow[id] != p {
      assert Home(ps, ow, id) && Own(ps, ow, c) && Own(ps, ow, p);
    }
  }

  /** Page r ends the text t inside an edge: no sequence ends there and tok is the only way on. */
  ghost predicate Boundary(ps: Pages, tx: Texts, r: PageId, t: seq<Token>, tok: Token) {
    && r in ps && r in tx && r != ROOT && tx[r] == t
    && ps[r].ids == [] && |ps[r].children| == 1
    && var c := ps[r].children[0];
    && c in ps && ps[c].tokens != [] && ps[c].tokens[0] == tok
  }

  lemma SplitBoundary(ps: Pages, tx: Texts, ow: Owner, p: PageId, k: nat, f: PageId)
    requires CanSplit(ps, tx, ow, p, k, f)
    ensures |tx[p]| >= |ps[p].tokens|
    ensures Boundary(SplitPages(ps, p, k, f), SplitTexts(ps, tx, p, k, f), p,
                     tx[p][..|tx[p]| - |ps[p].tokens| + k], ps[p].tokens[k])
  {
  }

  /** The child of a boundary may take in its own child. */
  lemma MergeBelow(ps: Pages, tx: Texts, ow: Owner, p: PageId, f: PageId, t: seq<Token>, tok: Token)
    requires Boundary(ps, tx, p, t, tok) && ps[p].children == [f] && CanMerge(ps, tx, ow, f)
    ensures Boundary(MergePages(ps, f), MergeTexts(ps, tx, f), p, t, tok)
    ensures forall q :: q in ps && |tx[q]| <= |tx[f]| ==> q in MergePages(ps, f)
  {
    var c := ps[f].children[0];
    assert Down(ps, c) && Down(ps, p) && f in ps[p].children && Up(ps, tx, p);
  }

  /** A boundary may be taken in by its parent, which then is the boundary. */
  lemma MergeAbove(ps: Pages, tx: Texts, ow: Owner, q: PageId, p: PageId, t: seq<Token>, tok: Token)
    requires Boundary(ps, tx, p, t, tok) && CanMerge(ps, tx, ow, q) && ps[q].children[0] == p
    ensures Boundary(MergePages(ps, q), MergeTexts(ps, tx, q), q, t, tok)
    ensures forall x :: x in ps && x != p ==> x in MergePages(ps, q)
  {
    var c := ps[p].children[0];
    assert Down(ps, p) && c in ps[p].children && Up(ps, tx, c);
  }

  // ---------------------------------------------------------------- leaves

  /** Changing the text of a page where no sequence ends changes no stored sequence. */
  lemma ContentsUntouched(ps: Pages, tx: Texts, ow: Owner, tx': Texts, p: PageId)
    requires Inv(ps, tx, ow) && (p in ps ==> ps[p].ids == [])
    requires forall q :: q in ps && q != p ==> q in tx' && tx'[q] == tx[q]
    ensures Contents(ow, tx') == Contents(ow, tx)
  {
    forall id | id in ow ensures ow[id] in ps && ow[id] != p {
      assert Home(ps, ow, id);
    }
    assert Contents(ow, tx').Keys == ow.Keys == Contents(ow, tx).Keys;
  }

  /** Hangs a new leaf f with the given tokens in front of p's children. */
  function GraftPages(ps: Pages, p: PageId, f: PageId, toks: seq<Token>): Pages
    requires p in ps
  {
    ps[p := ps[p].(children := [f] + ps[p].children)][f := Page(p, [], toks, [])]
  }

  ghost predicate CanGraft(ps: Pages, tx: Texts, ow: Owner, p: PageId, f: PageId, toks: seq<Token>) {
    && Inv(ps, tx, ow) && p in ps && f !in ps && f != NULL && 1 <= |toks| <= PAGE_CAPACITY
    && (forall c :: c in ps[p].children && c in ps && ps[c].tokens != [] ==> ps[c].tokens[0] != toks[0])
    && Ended(ps, p)
  }

  lemma GraftLinks(ps: Pages, tx: Texts, ow: Owner, p: PageId, f: PageId, toks: seq<Token>)
    requires CanGraft(ps, tx, ow, p, f, toks)
    ensures var ps', tx' := GraftPages(ps, p, f, toks), tx[f := tx[p] + toks];
            && (forall x {:trigger Up(ps', tx', x)} :: x in ps' ==> Up(ps', tx', x))
            && (forall x {:trigger Down(ps', x)} :: x in ps' ==> Down(ps', x))
  {
    var ps', tx' := GraftPages(ps, p, f, toks), tx[f := tx[p] + toks];
    forall x | x in ps' ensures Up(ps', tx', x) {
      assert x != f ==> Up(ps, tx, x);
    }
    forall x | x in ps' ensures Down(ps', x) {
      assert x != f ==> Down(ps, x) && f !in ps[x].children;
    }
  }

  lemma GraftApart(ps: Pages, tx: Texts, ow: Owner, p: PageId, f: PageId, toks: seq<Token>)
    requires CanGraft(ps, tx, ow, p, f, toks)
    ensures var ps' := GraftPages(ps, p, f, toks);
            forall x, y {:trigger Apart(ps', x, y)} :: x in ps' && y in ps' ==> Apart(ps', x, y)
  {
    var ps' := GraftPages(ps, p, f, toks);
    forall x, y | x in ps' && y in ps' ensures Apart(ps', x, y) {
      if x != f && y != f {
        assert Apart(ps, x, y);
      } else {
        var z := if x == f then y else x;
        assert z != f ==> Up(ps, tx, z);
      }
    }
  }

  lemma GraftKeeps(ps: Pages, tx: Texts, ow: Owner, p: PageId, f: PageId, toks: seq<Token>)
    requires CanGraft(ps, tx, ow, p, f, toks)
    ensures Inv(GraftPages(ps, p, f, toks), tx[f := tx[p] + toks], ow)
    ensures Ended(GraftPages(ps, p, f, toks), f)
    ensures Contents(ow, tx[f := tx[p] + toks]) == Contents(ow, tx)
  {
    var ps' := GraftPages(ps, p, f, toks);
    GraftLinks(ps, tx, ow, p, f, toks);
    GraftApart(ps, tx, ow, p, f, toks);
    ContentsUntouched(ps, tx, ow, tx[f := tx[p] + toks], f);
    forall x | x in ps' ensures Own(ps', ow, x) {
      assert x != f ==> Own(ps, ow, x);
    }
    forall id | id in ow ensures Home(ps', ow, id) {
      assert Home(ps, ow, id);
    }
    forall x | x in ps' && x != f ensures EndsSequence(ps', x) {
      assert x != p ==> EndsSequence(ps, x);
    }
  }

  /** Unhooks the leaf p from its parent and gives it back. */
  function PrunePages(ps: Pages, p: PageId): Pages
    requires p in ps && ps[p].parent in ps
  {
    var r := ps[p].parent;
    ps[r := ps[r].(children := Without(ps[r].children, p))] - {p}
  }

  ghost predicate CanPrune(ps: Pages, tx: Texts, ow: Owner, p: PageId) {
    && Inv(ps, tx, ow) && p in ps && p != ROOT && ps[p].ids == [] && ps[p].children == []
    && Ended(ps, p) && Up(ps, tx, p)
  }

  lemma PruneLinks(ps: Pages, tx: Texts, ow: Owner, p: PageId)
    requires CanPrune(ps, tx, ow, p)
    ensures var ps', tx' := PrunePages(ps, p), tx - {p};
            && (forall x {:trigger Up(ps', tx', x)} :: x in ps' ==> Up(ps', tx', x))
            && (forall x {:trigger Down(ps', x)} :: x in ps' ==> Down(ps', x))
  {
    var ps', tx' := PrunePages(ps, p), tx - {p};
    var r := ps[p].parent;
    assert |tx[r]| < |tx[p]|;
    assert Down(ps, r);
    WithoutMembers(ps[r].children, p);
    forall x | x in ps' ensures Up(ps', tx', x) {
      assert Up(ps, tx, x);
      assert x != ROOT ==> ps[x].parent != p;
    }
    forall x | x in ps' ensures Down(ps', x) {
      assert Down(ps, x);
    }
  }

  lemma PruneKeeps(ps: Pages, tx: Texts, ow: Owner, p: PageId)
    requires CanPrune(ps, tx, ow, p)
    ensures Inv(PrunePages(ps, p), tx - {p}, ow)
    ensures ps[p].parent in PrunePages(ps, p)
    ensures Ended(PrunePages(ps, p), ps[p].parent)
    ensures Contents(ow, tx - {p}) == Contents(ow, tx)
  {
    var ps' := PrunePages(ps, p);
    var r := ps[p].parent;
    assert r != p by { assert |tx[r]| < |tx[p]|; }
    PruneLinks(ps, tx, ow, p);
    ContentsUntouched(ps, tx, ow, tx - {p}, p);
    forall x, y | x in ps' && y in ps' ensures Apart(ps', x, y) {
      assert Apart(ps, x, y);
    }
    forall x | x in ps' ensures Own(ps', ow, x) {
      assert Own(ps, ow, x);
    }
    forall id | id in ow ensures Home(ps', ow, id) {
      assert Home(ps, ow, id);
    }
    forall x | x in ps' && x != r ensures EndsSequence(ps', x) {
      assert EndsSequence(ps, x);
    }
  }

  /** A leaf without sequences may change the tokens after its first one. */
  lemma ResizeKeeps(ps: Pages, tx: Texts, ow: Owner, p: PageId, toks: seq<Token>)
    requires Inv(ps, tx, ow) && p in ps && p != ROOT && ps[p].ids == [] && ps[p].children == []
    requires 1 <= |toks| <= PAGE_CAPACITY && Up(ps, tx, p) && toks[0] == ps[p].tokens[0]
    ensures var ps', tx' := ps[p := ps[p].(tokens := toks)], tx[p := tx[ps[p].parent] + toks];
            && Inv(ps', tx', ow)
            && (Ended(ps, p) ==> Ended(ps', p))
            && Contents(ow, tx') == Contents(ow, tx)
  {
    var ps', tx' := ps[p := ps[p].(tokens := toks)], tx[p := tx[ps[p].parent] + toks];
    assert ps[p].parent != p by { assert |tx[ps[p].parent]| < |tx[p]|; }
    forall x | x in ps' ensures Up(ps', tx', x) && Down(ps', x) && Own(ps', ow, x) {
      assert Up(ps, tx, x) && Down(ps, x) && Own(ps, ow, x);
      assert x != ROOT ==> ps[x].parent != p;
    }
    forall x, y | x in ps' && y in ps' ensures Apart(ps', x, y) {
      assert Apart(ps, x, y);
      assert Up(ps, tx, x) && Up(ps, tx, y);
    }
    forall id | id in ow ensures Home(ps', ow, id) {
      assert Home(ps, ow, id);
    }
    ContentsUntouched(ps, tx, ow, tx', p);
    if Ended(ps, p) {
      forall x | x in ps' && x != p ensures EndsSequence(ps', x) {
        assert EndsSequence(ps, x);
      }
    }
  }

  // ---------------------------------------------------------------- sequence ids

  /** The ids of a page have no part in links and texts. */
  lemma NewIdsSpelled(ps: Pages, tx: Texts, p: PageId, ids: seq<SeqId>)
    requires Spelled(ps, tx) && p in ps
    ensures Spelled(ps[p := ps[p].(ids := ids)], tx)
  {
    var ps' := ps[p := ps[p].(ids := ids)];
    forall x | x in ps' ensures Up(ps', tx, x) && Down(ps', x) {
      assert Up(ps, tx, x) && Down(ps, x);
    }
    forall x, y | x in ps' && y in ps' ensures Apart(ps', x, y) {
      assert Apart(ps, x, y);
    }
  }

  lemma AddIdKeeps(ps: Pages, tx: Texts, ow: Owner, p: PageId, id: SeqId)
    requires Inv(ps, tx, ow) && p in ps && id !in ow && Ended(ps, p)
    ensures var ps', ow' := ps[p := ps[p].(ids := [id] + ps[p].ids)], ow[id := p];
            && Inv(ps', tx, ow') && Ended(ps', NULL)
            && Contents(ow', tx) == Contents(ow, tx)[id := tx[p]]
  {
    var ps', ow' := ps[p := ps[p].(ids := [id] + ps[p].ids)], ow[id := p];
    NewIdsSpelled(ps, tx, p, [id] + ps[p].ids);
    forall x | x in ps' ensures Own(ps', ow', x) {
      assert Own(ps, ow, x);
    }
    forall i | i in ow' ensures Home(ps', ow', i) {
      if i != id {
        assert Home(ps, ow, i);
      }
    }
    forall x | x in ps' ensures EndsSequence(ps', x) {
      assert x != p ==> EndsSequence(ps, x);
    }
  }

  lemma PopIdKeeps(ps: Pages, tx: Texts, ow: Owner, id: SeqId)
    requires Inv(ps, tx, ow) && Ended(ps, NULL) && id in ow && Home(ps, ow, id)
    ensures var p := ow[id];
            var ps', ow' := ps[p := ps[p].(ids := Without(ps[p].ids, id))], ow - {id};
            && Inv(ps', tx, ow') && Ended(ps', p)
            && Contents(ow', tx) == Contents(ow, tx) - {id}
  {
    var p := ow[id];
    var ps', ow' := ps[p := ps[p].(ids := Without(ps[p].ids, id))], ow - {id};
    assert Own(ps, ow, p);
    WithoutMembers(ps[p].ids, id);
    NewIdsSpelled(ps, tx, p, Without(ps[p].ids, id));
    forall x | x in ps' ensures Own(ps', ow', x) {
      assert Own(ps, ow, x);
    }
    forall i | i in ow' ensures Home(ps', ow', i) {
      assert Home(ps, ow, i);
    }
    forall x | x in ps' && x != p ensures EndsSequence(ps', x) {
      assert EndsSequence(ps, x);
    }
  }

  // ---------------------------------------------------------------- matching

  ghost predicate NoChildStarts(ps: Pages, p: PageId, tok: Token)
    requires p in ps
  {
    forall c :: c in ps[p].children && c in ps && ps[c].tokens != [] ==> ps[c].tokens[0] != tok
  }

  /**
   Reading toks downwards from page s stops after `offset` tokens, `inPage` tokens into `page`:
   at the end of a page without a fitting child, or inside a page at a mismatch.
   */
  ghost predicate StopsAt(ps: Pages, tx: Texts, s: PageId, toks: seq<Token>, page: PageId, offset: nat, inPage: nat) {
    && s in ps && s in tx && page in ps && page in tx && offset <= |toks|
    && inPage <= |ps[page].tokens| <= |tx[page]|
    && tx[page][..|tx[page]| - |ps[page].tokens| + inPage] == tx[s] + toks[..offset]
    && (offset > 0 <==> page != s)
    && (page != s ==> ps[s].children != [] && page != ROOT && 0 < inPage && |tx[s]| < |tx[page]|)
    && (page == s ==> inPage == |ps[page].tokens|)
    && (offset < |toks| ==>
          if inPage == |ps[page].tokens| then NoChildStarts(ps, page, toks[offset])
          else ps[page].tokens[inPage] != toks[offset])
  }

  /** Reading toks[..offset] downwards from s ends exactly at the end of `page`. */
  ghost predicate Reads(ps: Pages, tx: Texts, s: PageId, toks: seq<Token>, page: PageId, offset: nat) {
    && s in ps && s in tx && page in ps && page in tx && offset <= |toks| && Up(ps, tx, page)
    && tx[page] == tx[s] + toks[..offset]
    && (offset > 0 <==> page != s)
    && (page != s ==> ps[s].children != [])
  }

  lemma ReadsStops(ps: Pages, tx: Texts, s: PageId, toks: seq<Token>, page: PageId, offset: nat)
    requires Spelled(ps, tx) && Reads(ps, tx, s, toks, page, offset)
    requires offset < |toks| ==> NoChildStarts(ps, page, toks[offset])
    ensures StopsAt(ps, tx, s, toks, page, offset, |ps[page].tokens|)
  {
    assert tx[page][..|tx[page]|] == tx[page];
  }

  lemma ReadsOn(ps: Pages, tx: Texts, s: PageId, toks: seq<Token>, page: PageId, offset: nat, c: PageId, n: nat)
    requires Spelled(ps, tx) && Reads(ps, tx, s, toks, page, offset) && offset < |toks|
    requires c in ps[page].children && c in ps && ps[c].tokens != [] && ps[c].tokens[0] == toks[offset]
    requires n == Lcp(ps[c].tokens, toks[offset..])
    ensures 1 <= n <= |ps[c].tokens| && offset + n <= |toks|
    ensures if n == |ps[c].tokens| then Reads(ps, tx, s, toks, c, offset + n)
            else StopsAt(ps, tx, s, toks, c, offset + n, n)
  {
    assert Down(ps, page) && Up(ps, tx, c);
    var rest, own := toks[offset..], ps[c].tokens;
    assert n >= 1 by {
      LcpAtLeast(own, rest, 1);
      assert own[..1] == [own[0]] <= rest;
    }
    assert toks[..offset + n] == toks[..offset] + own[..n] by { assert rest[..n] == toks[offset..offset + n]; }
    assert tx[c][..|tx[c]| - |own| + n] == tx[page] + own[..n];
    assert tx[page] + own[..n] == tx[s] + toks[..offset + n];
    assert n == |own| ==> own[..n] == own;
  }

  lemma StopIsFinal(ps: Pages, tx: Texts, toks: seq<Token>, page: PageId, offset: nat, inPage: nat, q: PageId)
    requires Spelled(ps, tx) && StopsAt(ps, tx, ROOT, toks, page, offset, inPage) && q in ps
    requires tx[page] <= tx[q]
    ensures offset == |toks| || offset == |tx[q]| || toks[offset] != tx[q][offset]
  {
    assert Up(ps, tx, page) && Up(ps, tx, ROOT);
    if inPage == |ps[page].tokens| && q != page {
      PrefixIsAnc(ps, tx, page, q);
      var c := ChildTowards(ps, tx, page, q);
      assert Up(ps, tx, c);
      AncText(ps, tx, c, q);
    }
  }

  /**
   From the root, the stopping place shows the longest match: exactly the pages below it have
   read `offset` tokens of toks, and no page reads more.
   */
  lemma StopIsLongest(ps: Pages, tx: Texts, toks: seq<Token>, page: PageId, offset: nat, inPage: nat, q: PageId)
    requires Spelled(ps, tx) && StopsAt(ps, tx, ROOT, toks, page, offset, inPage) && q in ps
    ensures Lcp(toks, tx[q]) <= offset
    ensures offset > 0 ==> (Lcp(toks, tx[q]) == offset <==> q in Below(ps, tx, page))
  {
    assert Up(ps, tx, page) && Up(ps, tx, ROOT);
    assert tx[page][..offset] == toks[..offset];
    LcpAtLeast(toks, tx[q], offset);
    if offset > 0 && Lcp(toks, tx[q]) >= offset {
      EdgeIsUnbranched(ps, tx, page, q, offset);
      PrefixIsAnc(ps, tx, page, q);
    }
    if q in Below(ps, tx, page) {
      StopIsFinal(ps, tx, toks, page, offset, inPage, q);
      assert toks[..offset] <= tx[q];
      LcpUnique(toks, tx[q], offset);
    }
  }
}
