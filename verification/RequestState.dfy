/** The state of one request on one model: committed tokens, token counts, inputs and draft tree. */
module RequestState {
  import opened Lists
  import opened Tokens
  import opened PromptData

  /** The table of token counts lists exactly the tokens of the bag, each with its multiplicity. */
  ghost predicate Counts(appeared: map<Token, int>, bag: multiset<Token>) {
    forall t :: (t in appeared <==> t in bag) && (t in appeared ==> appeared[t] == bag[t])
  }

  function Increment(appeared: map<Token, int>, t: Token): map<Token, int> {
    appeared[t := (if t in appeared then appeared[t] else 0) + 1]
  }

  function Decrement(appeared: map<Token, int>, t: Token): map<Token, int>
    requires t in appeared
  {
    if appeared[t] == 1 then appeared - {t} else appeared[t := appeared[t] - 1]
  }

  lemma CountsPush(appeared: map<Token, int>, bag: multiset<Token>, t: Token)
    requires Counts(appeared, bag)
    ensures Counts(Increment(appeared, t), bag + multiset{t})
  {
  }

  lemma CountsPop(appeared: map<Token, int>, bag: multiset<Token>, t: Token)
    requires Counts(appeared, bag + multiset{t})
    ensures t in appeared && Counts(Decrement(appeared, t), bag)
  {
    assert t in bag + multiset{t};
  }

  lemma CountsUnique(a: map<Token, int>, b: map<Token, int>, bag: multiset<Token>)
    requires Counts(a, bag) && Counts(b, bag)
    ensures a == b
  {
    MapsEqual(a, b);
  }

  /** The bag of a list, taken apart at the end and at the front. */
  lemma BagSnoc(s: seq<Token>, t: Token)
    ensures multiset(s + [t]) == multiset(s) + multiset{t}
  {
  }

  lemma BagCons(s: seq<Token>, t: Token)
    ensures multiset([t] + s) == multiset(s) + multiset{t}
  {
  }

  // ---------------------------------------------------------------- draft trees

  /** Every draft token hangs below an earlier one, or below the last committed token (-1). */
  ghost predicate TreeOk(parents: seq<int>) {
    forall j :: 0 <= j < |parents| ==> -1 <= parents[j] < j
  }

  /** c is the first draft token below j, or -1. */
  ghost predicate FirstChild(parents: seq<int>, j: int, c: int) {
    if c == -1 then forall k :: 0 <= k < |parents| ==> parents[k] != j
    else 0 <= c < |parents| && parents[c] == j && forall k :: 0 <= k < c ==> parents[k] != j
  }

  /** The first-child links once `parent` has one more child. */
  function Linked(firstChild: seq<int>, parent: int): seq<int>
    requires -1 <= parent < |firstChild|
  {
    if parent == -1 || firstChild[parent] != -1 then firstChild else firstChild[parent := |firstChild|]
  }

  /** The tokens from draft token j up to the root of the tree. */
  ghost function Path(drafts: seq<Token>, parents: seq<int>, j: int): seq<Token>
    requires |drafts| == |parents| && TreeOk(parents) && -1 <= j < |drafts|
    decreases j
  {
    if j == -1 then [] else [drafts[j]] + Path(drafts, parents, parents[j])
  }

  /** From node j on, each node is the parent of the one before it, and the last one has none. */
  ghost predicate Ancestors(parents: seq<int>, j: int, nodes: seq<int>) {
    && (j == -1 <==> nodes == []) && (nodes != [] ==> nodes[0] == j && 0 <= nodes[|nodes| - 1] < |parents|)
    && (nodes != [] ==> parents[nodes[|nodes| - 1]] == -1)
    && forall i :: 0 <= i < |nodes| - 1 ==> 0 <= nodes[i] < |parents| && nodes[i + 1] == parents[nodes[i]]
  }

  /** The path holds the tokens of the node and of all its ancestors, in this order. */
  lemma {:induction false} PathIsAncestors(drafts: seq<Token>, parents: seq<int>, j: int) returns (nodes: seq<int>)
    requires |drafts| == |parents| && TreeOk(parents) && -1 <= j < |drafts|
    ensures Ancestors(parents, j, nodes) && |nodes| == |Path(drafts, parents, j)|
    ensures forall i :: 0 <= i < |nodes| ==>
              0 <= nodes[i] < |drafts| && Path(drafts, parents, j)[i] == drafts[nodes[i]]
    decreases j
  {
    if j == -1 {
      nodes := [];
    } else {
      var up := PathIsAncestors(drafts, parents, parents[j]);
      nodes := [j] + up;
      assert forall i :: 0 < i < |nodes| ==> nodes[i] == up[i - 1];
    }
  }

  class RequestModelState {
    var internalId: int
    var committed: seq<Token>
    var appeared: map<Token, int>
    var inputs: seq<Data>
    /** How many committed tokens at the end are not in the KV cache yet. */
    var numNext: int
    var retokenize: bool
    var drafts: seq<Token>
    /** Where the probabilities of each draft token are stored; siblings share a slot. */
    var slots: seq<int>
    var parents: seq<int>
    var firstChild: seq<int>

    ghost predicate Drafts()
      reads this
    {
      && |parents| == |drafts| == |firstChild| == |slots| && TreeOk(parents)
      && forall j :: 0 <= j < |drafts| ==> FirstChild(parents, j, firstChild[j])
    }

    ghost predicate Valid()
      reads this
    {
      Counts(appeared, multiset(committed)) && Drafts()
    }

    constructor (internalId: int, inputs: seq<Data>)
      ensures Valid() && this.internalId == internalId && this.inputs == inputs
      ensures committed == [] && numNext == 0 && drafts == [] && !retokenize
    {
      this.internalId, this.inputs := internalId, inputs;
      committed, appeared, numNext, retokenize := [], map[], 0, false;
      drafts, slots, parents, firstChild := [], [], [], [];
    }

    method CommitToken(t: Token)
      requires Valid()
      modifies this`committed, this`appeared, this`numNext
      ensures Valid() && committed == old(committed) + [t] && numNext == old(numNext) + 1
    {
      CountsPush(appeared, multiset(committed), t);
      BagSnoc(committed, t);
      committed := committed + [t];
      appeared := Increment(appeared, t);
      numNext := numNext + 1;
    }

    method PopToken()
      requires Valid() && committed != []
      modifies this`committed, this`appeared
      ensures Valid() && committed == old(committed)[..|old(committed)| - 1]
    {
      var n := |committed| - 1;
      var last := committed[n];
      ghost var rest := committed[..n];
      assert committed == rest + [last];
      BagSnoc(rest, last);
      CountsPop(appeared, multiset(rest), last);
      appeared := Decrement(appeared, last);
      committed := committed[..n];
    }

    method RollbackTokens(count: nat)
      requires Valid() && count <= |committed|
      modifies this`committed, this`appeared
      ensures Valid() && committed == old(committed)[..|old(committed)| - count]
    {
      TakeAll(committed);
      for i := 0 to count
        invariant Valid() && committed == old(committed)[..|old(committed)| - i]
      {
        TakeFewer(old(committed), |committed|, |committed| - 1);
        PopToken();
      }
    }

    /** Grows the draft tree below draft token `parent`. */
    method AddDraftToken(t: Token, slot: int, parent: int)
      requires Valid() && -1 <= parent < |drafts|
      modifies this`drafts, this`slots, this`parents, this`firstChild
      ensures Valid() && drafts == old(drafts) + [t] && parents == old(parents) + [parent]
      ensures slots == old(slots) + [slot]
      ensures firstChild == Linked(old(firstChild), parent) + [-1]
    {
      drafts := drafts + [t];
      slots := slots + [slot];
      parents := parents + [parent];
      firstChild := firstChild + [-1];
      if parent != -1 {
        if firstChild[parent] == -1 {
          firstChild := firstChild[parent := |drafts| - 1];
        }
      }
    }

    /** Empties the draft tree; every slot that was in use is given back once. */
    method RemoveAllDraftTokens() returns (removed: seq<int>)
      requires Valid()
      modifies this`drafts, this`slots, this`parents, this`firstChild
      ensures Valid() && drafts == [] && parents == [] && slots == []
      ensures NoDup(removed) && forall x :: x in removed <==> x in old(slots)
    {
      removed := Distinct(slots);
      drafts, slots, parents, firstChild := [], [], [], [];
    }
  }

  /** Each slot once. */
  method Distinct(slots: seq<int>) returns (r: seq<int>)
    ensures NoDup(r) && forall x :: x in r <==> x in slots
  {
    r := [];
    for i := 0 to |slots|
      invariant NoDup(r) && forall x :: x in r <==> x in slots[..i]
    {
      TakeNext(slots, i);
      if slots[i] !in r {
        r := r + [slots[i]];
      }
    }
    assert slots[..|slots|] == slots;
  }

  // ---------------------------------------------------------------- penalties

  /** The walk from draft token j to the root ends, and visits the path. */
  method DraftPath(m: RequestModelState, j: int) returns (path: seq<Token>, ghost nodes: seq<int>)
    requires m.Valid() && -1 <= j < |m.drafts|
    ensures path == Path(m.drafts, m.parents, j)
    ensures Ancestors(m.parents, j, nodes) && |path| == |nodes|
    ensures forall i :: 0 <= i < |nodes| ==> 0 <= nodes[i] < |m.drafts| && path[i] == m.drafts[nodes[i]]
  {
    nodes := PathIsAncestors(m.drafts, m.parents, j);
    path := [];
    var cur := j;
    while cur != -1
      invariant -1 <= cur < |m.drafts|
      invariant path + Path(m.drafts, m.parents, cur) == Path(m.drafts, m.parents, j)
      decreases cur
    {
      ConcatAssoc(path, [m.drafts[cur]], Path(m.drafts, m.parents, m.parents[cur]));
      path := path + [m.drafts[cur]];
      cur := m.parents[cur];
    }
  }

  /**
   The counts that the penalty of one position uses: those of the committed tokens and of the
   draft tokens on the way to the position. The table itself comes back unchanged.
   */
  method PenaltyCounts(m: RequestModelState, draft: RequestModelState, j: int)
    returns (emitted: map<Token, int>, ghost path: seq<Token>, ghost nodes: seq<int>)
    requires m.Valid() && draft.Valid() && -1 <= j < |draft.drafts|
    modifies m`appeared
    ensures Counts(emitted, multiset(m.committed) + multiset(path)) && m.appeared == old(m.appeared)
    ensures path == old(Path(draft.drafts, draft.parents, j))
    ensures Ancestors(draft.parents, j, nodes) && |path| == |nodes|
    ensures forall i :: 0 <= i < |nodes| ==> 0 <= nodes[i] < |draft.drafts| && path[i] == draft.drafts[nodes[i]]
  {
    var way;
    way, nodes := DraftPath(draft, j);
    path := way;
    m.appeared := CountAll(m.appeared, way, multiset(m.committed));
    emitted := m.appeared;
    m.appeared := UncountAll(m.appeared, way, multiset(m.committed));
    CountsUnique(m.appeared, old(m.appeared), multiset(m.committed));
  }

  method CountAll(table: map<Token, int>, path: seq<Token>, ghost bag: multiset<Token>) returns (r: map<Token, int>)
    requires Counts(table, bag)
    ensures Counts(r, bag + multiset(path))
  {
    r := table;
    assert bag + multiset(path[..0]) == bag;
    for i := 0 to |path|
      invariant Counts(r, bag + multiset(path[..i]))
    {
      CountsPush(r, bag + multiset(path[..i]), path[i]);
      BagSnoc(path[..i], path[i]);
      assert path[..i + 1] == path[..i] + [path[i]];
      assert bag + multiset(path[..i + 1]) == bag + multiset(path[..i]) + multiset{path[i]};
      r := Increment(r, path[i]);
    }
    assert path[..|path|] == path;
  }

  method UncountAll(table: map<Token, int>, path: seq<Token>, ghost bag: multiset<Token>) returns (r: map<Token, int>)
    requires Counts(table, bag + multiset(path))
    ensures Counts(r, bag)
  {
    r := table;
    assert path[0..] == path;
    for i := 0 to |path|
      invariant Counts(r, bag + multiset(path[i..]))
    {
      BagCons(path[i + 1..], path[i]);
      assert path[i..] == [path[i]] + path[i + 1..];
      assert bag + multiset(path[i..]) == bag + multiset(path[i + 1..]) + multiset{path[i]};
      CountsPop(r, bag + multiset(path[i + 1..]), path[i]);
      r := Decrement(r, path[i]);
    }
    assert bag + multiset(path[|path|..]) == bag;
  }
}
