/**
 The pages of the radix tree as plain values: one record per page, the tokens spelled on the
 way from the root to each page, and what every structural step does to both.
 */
module RadixPages {
  import opened Lists
  import opened Tokens

  type PageId = int

  /** A pool page is named by its pool index; the root lies outside the pool. */
  const ROOT: PageId := -1
  const NULL: PageId := -2
  const PAGE_CAPACITY: nat := 64

  datatype Page = Page(parent: PageId, children: seq<PageId>, tokens: seq<Token>, ids: seq<SeqId>)

  type Pages = map<PageId, Page>
  type Texts = map<PageId, seq<Token>>
  type Owner = map<SeqId, PageId>

  function Capacity(p: PageId): nat {
    if p == ROOT then 0 else PAGE_CAPACITY
  }

  // ---------------------------------------------------------------- well-formedness

  /** The link to the parent, the page size, and the text spelled by the page. */
  ghost predicate Up(ps: Pages, tx: Texts, p: PageId)
    requires p in ps
  {
    && p in tx
    && if p == ROOT then ps[p].parent == NULL && ps[p].tokens == [] && tx[p] == []
       else var r := ps[p].parent;
            && r in ps && r in tx && p in ps[r].children
            && 1 <= |ps[p].tokens| <= PAGE_CAPACITY
            && tx[p] == tx[r] + ps[p].tokens
  }

  /** The child list. */
  ghost predicate Down(ps: Pages, p: PageId)
    requires p in ps
  {
    && NoDup(ps[p].children)
    && forall c :: c in ps[p].children ==> c in ps && c != ROOT && ps[c].parent == p
  }

  /** The sequence ids that end at p. */
  ghost predicate Own(ps: Pages, ow: Owner, p: PageId)
    requires p in ps
  {
    && NoDup(ps[p].ids)
    && forall id :: id in ps[p].ids ==> id in ow && ow[id] == p
  }

  ghost predicate Home(ps: Pages, ow: Owner, id: SeqId)
    requires id in ow
  {
    ow[id] in ps && id in ps[ow[id]].ids
  }

  /** Siblings differ in their first token. */
  ghost predicate Apart(ps: Pages, p: PageId, q: PageId)
    requires p in ps && q in ps
  {
    && p != q && p != ROOT && q != ROOT
    && ps[p].parent == ps[q].parent && ps[p].tokens != [] && ps[q].tokens != []
    ==> ps[p].tokens[0] != ps[q].tokens[0]
  }

  ghost predicate Spelled(ps: Pages, tx: Texts) {
    && ROOT in ps && NULL !in ps
    && tx.Keys == ps.Keys
    && (forall p {:trigger Up(ps, tx, p)} :: p in ps ==> Up(ps, tx, p))
    && (forall p {:trigger Down(ps, p)} :: p in ps ==> Down(ps, p))
    && (forall p, q {:trigger Apart(ps, p, q)} :: p in ps && q in ps ==> Apart(ps, p, q))
  }

  ghost predicate Owned(ps: Pages, ow: Owner) {
    && (forall p {:trigger Own(ps, ow, p)} :: p in ps ==> Own(ps, ow, p))
    && (forall id {:trigger Home(ps, ow, id)} :: id in ow ==> Home(ps, ow, id))
  }

  ghost predicate Inv(ps: Pages, tx: Texts, ow: Owner) {
    Spelled(ps, tx) && Owned(ps, ow)
  }

  ghost predicate EndsSequence(ps: Pages, p: PageId)
    requires p in ps
  {
    p != ROOT && ps[p].children == [] ==> ps[p].ids != []
  }

  /** Every leaf below the root, `hole` excepted, carries a sequence. */
  ghost predicate Ended(ps: Pages, hole: PageId) {
    forall p {:trigger EndsSequence(ps, p)} :: p in ps && p != hole ==> EndsSequence(ps, p)
  }

  /** The plain map that the tree stands for. */
  ghost function Contents(ow: Owner, tx: Texts): map<SeqId, seq<Token>> {
    map id | id in ow && ow[id] in tx :: tx[ow[id]]
  }

  lemma StoredKeys(ps: Pages, tx: Texts, ow: Owner)
    requires Inv(ps, tx, ow)
    ensures Contents(ow, tx).Keys == ow.Keys
  {
    forall id | id in ow ensures ow[id] in tx {
      assert Home(ps, ow, id);
    }
  }

  // ---------------------------------------------------------------- trie geometry

  /** a lies on the parent chain that starts at q. */
  ghost predicate Anc(ps: Pages, tx: Texts, a: PageId, q: PageId)
    requires Spelled(ps, tx) && q in ps
    decreases |tx[q]|
  {
    assert Up(ps, tx, q);
    q == a || (q != ROOT && Anc(ps, tx, a, ps[q].parent))
  }

  lemma {:induction false} AncText(ps: Pages, tx: Texts, a: PageId, q: PageId)
    requires Spelled(ps, tx) && a in ps && q in ps && Anc(ps, tx, a, q)
    ensures tx[a] <= tx[q]
    ensures a != q ==> |tx[a]| < |tx[q]|
    decreases |tx[q]|
  {
    assert Up(ps, tx, q);
    if q != a {
      AncText(ps, tx, a, ps[q].parent);
    }
  }

  lemma {:induction false} RootAnc(ps: Pages, tx: Texts, q: PageId)
    requires Spelled(ps, tx) && q in ps
    ensures Anc(ps, tx, ROOT, q)
    decreases |tx[q]|
  {
    assert Up(ps, tx, q);
    if q != ROOT {
      RootAnc(ps, tx, ps[q].parent);
    }
  }

  lemma {:induction false} AncTrans(ps: Pages, tx: Texts, a: PageId, b: PageId, q: PageId)
    requires Spelled(ps, tx) && a in ps && b in ps && q in ps && Anc(ps, tx, a, b) && Anc(ps, tx, b, q)
    ensures Anc(ps, tx, a, q)
    decreases |tx[q]|
  {
    assert Up(ps, tx, q);
    if q != b {
      AncTrans(ps, tx, a, b, ps[q].parent);
    }
  }

  /** Strictly below r means below one of r's children. */
  lemma {:induction false} ChildTowards(ps: Pages, tx: Texts, r: PageId, q: PageId) returns (c: PageId)
    requires Spelled(ps, tx) && r in ps && q in ps && q != r && Anc(ps, tx, r, q)
    ensures c in ps && c != ROOT && ps[c].parent == r && c in ps[r].children && Anc(ps, tx, c, q)
    decreases |tx[q]|
  {
    assert Up(ps, tx, q);
    var p := ps[q].parent;
    if p == r {
      c := q;
    } else {
      c := ChildTowards(ps, tx, r, p);
    }
  }

  ghost predicate Diverge(tx: Texts, p: PageId, q: PageId, i: nat) {
    p in tx && q in tx && i < |tx[p]| && i < |tx[q]| && tx[p][i] != tx[q][i]
  }

  /** Two pages lie on one chain, or their texts part no later than at the first token of p. */
  lemma {:induction false} Trichotomy(ps: Pages, tx: Texts, p: PageId, q: PageId)
    requires Spelled(ps, tx) && p in ps && q in ps
    ensures || Anc(ps, tx, p, q) || Anc(ps, tx, q, p)
            || (p != ROOT && ps[p].parent in tx && exists i: nat :: i <= |tx[ps[p].parent]| && Diverge(tx, p, q, i))
    decreases |tx[p]|
  {
    assert Up(ps, tx, p);
    if p == ROOT {
      RootAnc(ps, tx, q);
      return;
    }
    var r := ps[p].parent;
    Trichotomy(ps, tx, r, q);
    if Anc(ps, tx, r, q) {
      if q != r {
        var c := ChildTowards(ps, tx, r, q);
        if c != p {
          assert Apart(ps, p, c);
          assert Up(ps, tx, c);
          AncText(ps, tx, c, q);
          assert Diverge(tx, p, q, |tx[r]|);
        }
      }
    } else if !Anc(ps, tx, q, p) {
      assert Up(ps, tx, r);
      var i: nat :| i <= |tx[ps[r].parent]| && Diverge(tx, r, q, i);
      assert Diverge(tx, p, q, i);
    }
  }

  /** Reading as far as one token into page p's own tokens already fixes the whole page. */
  lemma EdgeIsUnbranched(ps: Pages, tx: Texts, p: PageId, q: PageId, n: nat)
    requires Spelled(ps, tx) && p in ps && q in ps && p != ROOT && ps[p].parent in tx
    requires |tx[ps[p].parent]| < n <= |tx[p]|
    requires tx[p][..n] <= tx[q]
    ensures Anc(ps, tx, p, q)
  {
    Trichotomy(ps, tx, p, q);
    assert Up(ps, tx, p);
    if Anc(ps, tx, q, p) && q != p {
      AncText(ps, tx, q, ps[p].parent);
    }
    assert forall i: nat :: i < n ==> tx[p][..n][i] == tx[q][i];
  }

  /** Text prefix and ancestry coincide. */
  lemma PrefixIsAnc(ps: Pages, tx: Texts, p: PageId, q: PageId)
    requires Spelled(ps, tx) && p in ps && q in ps
    ensures tx[p] <= tx[q] <==> Anc(ps, tx, p, q)
  {
    if Anc(ps, tx, p, q) {
      AncText(ps, tx, p, q);
    } else if tx[p] <= tx[q] {
      assert Up(ps, tx, p);
      RootAnc(ps, tx, q);
      assert tx[p][..|tx[p]|] == tx[p];
      EdgeIsUnbranched(ps, tx, p, q, |tx[p]|);
    }
  }

  /** The pages whose text extends the text of p. */
  ghost function Below(ps: Pages, tx: Texts, p: PageId): set<PageId>
    requires Spelled(ps, tx) && p in ps
  {
    set q | q in ps && tx[p] <= tx[q]
  }

  lemma BelowShrinks(ps: Pages, tx: Texts, p: PageId, c: PageId)
    requires Spelled(ps, tx) && p in ps && c in ps[p].children
    ensures c in ps && c != ROOT && Below(ps, tx, c) < Below(ps, tx, p)
  {
    assert Down(ps, p);
    assert Up(ps, tx, c);
    assert p in Below(ps, tx, p) && p !in Below(ps, tx, c);
  }

  /** Below p there is p itself, and then what is below exactly one of its children. */
  lemma BelowSplits(ps: Pages, tx: Texts, p: PageId, q: PageId)
    requires Spelled(ps, tx) && p in ps && q in ps
    ensures q in Below(ps, tx, p) <==>
            q == p || exists c :: c in ps[p].children && c in ps && q in Below(ps, tx, c)
  {
    if q in Below(ps, tx, p) && q != p {
      PrefixIsAnc(ps, tx, p, q);
      var c := ChildTowards(ps, tx, p, q);
      PrefixIsAnc(ps, tx, c, q);
    }
    forall c | c in ps[p].children && c in ps && q in Below(ps, tx, c)
      ensures q in Below(ps, tx, p)
    {
      BelowShrinks(ps, tx, p, c);
    }
  }

  lemma SiblingsBelowDisjoint(ps: Pages, tx: Texts, a: PageId, b: PageId, q: PageId)
    requires Spelled(ps, tx) && a in ps && b in ps && q in ps && a != b
    requires a != ROOT && b != ROOT && ps[a].parent == ps[b].parent
    requires q in Below(ps, tx, a)
    ensures q !in Below(ps, tx, b)
  {
    assert Up(ps, tx, a) && Up(ps, tx, b) && Apart(ps, a, b);
    var n := |tx[ps[a].parent]|;
    assert tx[q][n] == ps[a].tokens[0];
  }

  /** Below every page some sequence ends: the tree holds no page that no sequence needs. */
  lemma {:induction false} SequenceBelow(ps: Pages, tx: Texts, ow: Owner, p: PageId) returns (id: SeqId)
    requires Inv(ps, tx, ow) && Ended(ps, NULL) && p in ps && p != ROOT
    ensures id in ow && ow[id] in Below(ps, tx, p)
    decreases Below(ps, tx, p)
  {
    assert EndsSequence(ps, p);
    if ps[p].children == [] {
      id := ps[p].ids[0];
      assert Own(ps, ow, p);
    } else {
      var c := ps[p].children[0];
      BelowShrinks(ps, tx, p, c);
      id := SequenceBelow(ps, tx, ow, c);
    }
  }

  // ---------------------------------------------------------------- enumeration

  /** The pages below some page of the list. */
  ghost function Under(ps: Pages, tx: Texts, list: seq<PageId>): set<PageId> {
    set q, c | q in ps && q in tx && c in list && c in tx && tx[c] <= tx[q] :: q
  }

  /** A list of children of one page, without repetition. */
  ghost predicate Siblings(ps: Pages, list: seq<PageId>) {
    && NoDup(list)
    && (forall c :: c in list ==> c in ps && c != ROOT)
    && (forall c, d :: c in list && d in list ==> ps[c].parent == ps[d].parent)
  }

  lemma UnderChildren(ps: Pages, tx: Texts, p: PageId)
    requires Spelled(ps, tx) && p in ps
    ensures Siblings(ps, ps[p].children)
    ensures p !in Under(ps, tx, ps[p].children)
    ensures Below(ps, tx, p) == {p} + Under(ps, tx, ps[p].children)
  {
    assert Down(ps, p);
    forall q | q in ps ensures q in Below(ps, tx, p) <==> q == p || q in Under(ps, tx, ps[p].children) {
      BelowSplits(ps, tx, p, q);
    }
    forall c | c in ps[p].children ensures !(tx[c] <= tx[p]) {
      assert Up(ps, tx, c);
    }
  }

  lemma UnderHead(ps: Pages, tx: Texts, list: seq<PageId>)
    requires Spelled(ps, tx) && Siblings(ps, list) && list != []
    ensures list[0] in ps && Siblings(ps, list[1..])
    ensures Under(ps, tx, list) == Below(ps, tx, list[0]) + Under(ps, tx, list[1..])
    ensures Below(ps, tx, list[0]) !! Under(ps, tx, list[1..])
  {
    var c := list[0];
    assert list == [c] + list[1..];
    assert c in list && c !in list[1..];
    forall q | q in ps
      ensures q in Under(ps, tx, list) <==> q in Below(ps, tx, c) || q in Under(ps, tx, list[1..])
    {
      if q in Under(ps, tx, list) {
        var d :| d in list && d in tx && tx[d] <= tx[q];
        assert d == c || d in list[1..];
      }
    }
    forall q | q in Below(ps, tx, c) ensures q !in Under(ps, tx, list[1..]) {
      forall d | d in list[1..] ensures !(tx[d] <= tx[q]) {
        assert d in list;
        SiblingsBelowDisjoint(ps, tx, c, d, q);
      }
    }
  }

  /** out lists, once each, the sequences that end in the pages of S. */
  ghost predicate Enumerates(out: seq<SeqId>, ow: Owner, S: set<PageId>) {
    && NoDup(out)
    && forall id :: id in out <==> id in ow && ow[id] in S
  }

  lemma EnumeratesLocal(ps: Pages, ow: Owner, p: PageId)
    requires Owned(ps, ow) && p in ps
    ensures Enumerates(ps[p].ids, ow, {p})
  {
    assert Own(ps, ow, p);
    forall id | id in ow && ow[id] == p ensures id in ps[p].ids {
      assert Home(ps, ow, id);
    }
  }

  lemma EnumeratesConcat(a: seq<SeqId>, b: seq<SeqId>, ow: Owner, S: set<PageId>, T: set<PageId>)
    requires Enumerates(a, ow, S) && Enumerates(b, ow, T) && S !! T
    ensures Enumerates(a + b, ow, S + T)
  {
    forall i, j | 0 <= i < j < |a + b| ensures (a + b)[i] != (a + b)[j] {
      if i < |a| <= j {
        var x, y := a[i], b[j - |a|];
        assert x in a && y in b;
      }
    }
  }

  // ---------------------------------------------------------------- reachability

  /** A walk along child links from the root to p. */
  ghost predicate Walk(ps: Pages, path: seq<PageId>, p: PageId) {
    && path != [] && path[0] == ROOT && path[|path| - 1] == p
    && forall i :: 0 <= i < |path| - 1 ==> path[i] in ps && path[i + 1] in ps[path[i]].children
  }

  /** Every page in use can be reached from the root. */
  lemma {:induction false} UsedIsReachable(ps: Pages, tx: Texts, p: PageId) returns (path: seq<PageId>)
    requires Spelled(ps, tx) && p in ps
    ensures Walk(ps, path, p)
    decreases |tx[p]|
  {
    assert Up(ps, tx, p);
    if p == ROOT {
      path := [ROOT];
    } else {
      path := UsedIsReachable(ps, tx, ps[p].parent);
      path := path + [p];
    }
  }

  /** Every page that can be reached is in use. */
  lemma {:induction false} ReachableIsUsed(ps: Pages, tx: Texts, path: seq<PageId>, p: PageId)
    requires Spelled(ps, tx) && Walk(ps, path, p)
    ensures p in ps
  {
    if |path| > 1 {
      var q := path[|path| - 2];
      assert Down(ps, q) && p in ps[q].children;
    }
  }

  /** A page in use means a stored sequence: when the last sequence goes, so does the last page. */
  lemma PagesNeedSequences(ps: Pages, tx: Texts, ow: Owner)
    requires Inv(ps, tx, ow) && Ended(ps, NULL)
    ensures (exists p :: p in ps && p != ROOT) ==> Contents(ow, tx) != map[]
  {
    StoredKeys(ps, tx, ow);
    if p :| p in ps && p != ROOT {
      var id := SequenceBelow(ps, tx, ow, p);
      assert id in Contents(ow, tx).Keys;
    }
  }
}
