/**
 One round of speculative decoding: the draft model proposes a chain or a tree of draft tokens, the
 large model verifies them, and both KV caches end up holding the same committed tokens.
 */
module Speculative {
  import opened Lists
  import opened Tokens
  import opened RequestState

  // ---------------------------------------------------------------- draft trees

  /** Each draft token hangs below the one before it. */
  ghost predicate Chain(parents: seq<int>) {
    forall j :: 0 <= j < |parents| ==> parents[j] == j - 1
  }

  /** The tokens from `start` on are the leaves: the newest level of the tree. */
  predicate Level(firstChild: seq<int>, start: nat) {
    start <= |firstChild| && forall j :: 0 <= j < |firstChild| ==> (firstChild[j] == -1 <==> start <= j)
  }

  /** The tokens on the way from the root to node j. */
  ghost function Trail(toks: seq<Token>, parents: seq<int>, j: int): seq<Token>
    requires |toks| == |parents| && TreeOk(parents) && -1 <= j < |toks|
    decreases j
  {
    if j == -1 then [] else Trail(toks, parents, parents[j]) + [toks[j]]
  }

  /** Later nodes have no part in a trail. */
  lemma {:induction false} TrailPrefix(toks: seq<Token>, parents: seq<int>, n: nat, j: int)
    requires |toks| == |parents| && TreeOk(parents) && -1 <= j < n <= |toks|
    ensures TreeOk(parents[..n]) && Trail(toks[..n], parents[..n], j) == Trail(toks, parents, j)
    decreases j
  {
    if j != -1 {
      TrailPrefix(toks, parents, n, parents[j]);
    }
  }

  /** A trail is the path from the node to the root, walked the other way. */
  lemma {:induction false} TrailIsPath(toks: seq<Token>, parents: seq<int>, j: int)
    requires |toks| == |parents| && TreeOk(parents) && -1 <= j < |toks|
    ensures |Trail(toks, parents, j)| == |Path(toks, parents, j)|
    ensures forall i :: 0 <= i < |Path(toks, parents, j)| ==>
              Trail(toks, parents, j)[i] == Path(toks, parents, j)[|Path(toks, parents, j)| - 1 - i]
    decreases j
  {
    if j != -1 {
      TrailIsPath(toks, parents, parents[j]);
      var up := Path(toks, parents, parents[j]);
      assert Path(toks, parents, j) == [toks[j]] + up;
    }
  }

  lemma {:induction false} ChainTrail(toks: seq<Token>, parents: seq<int>, j: int)
    requires |toks| == |parents| && TreeOk(parents) && Chain(parents) && -1 <= j < |toks|
    ensures Trail(toks, parents, j) == toks[..j + 1]
    decreases j
  {
    if j != -1 {
      ChainTrail(toks, parents, j - 1);
      TakeNext(toks, j);
    }
  }

  /** The tree that is verified has the last committed token as its root, in front of the draft tokens. */
  function Rooted(parents: seq<int>): seq<int> {
    [-1] + seq(|parents|, j requires 0 <= j < |parents| => parents[j] + 1)
  }

  lemma {:induction false} RootedTrail(root: Token, toks: seq<Token>, parents: seq<int>, j: int)
    requires |toks| == |parents| && TreeOk(parents) && -1 <= j < |toks|
    ensures TreeOk(Rooted(parents))
    ensures Trail([root] + toks, Rooted(parents), j + 1) == [root] + Trail(toks, parents, j)
    decreases j
  {
    var toks', parents' := [root] + toks, Rooted(parents);
    assert TreeOk(parents') by {
      forall i | 0 <= i < |parents'| ensures -1 <= parents'[i] < i {
        if i > 0 {
          assert parents'[i] == parents[i - 1] + 1;
        }
      }
    }
    if j == -1 {
      assert Trail(toks', parents', -1) == [];
    } else {
      RootedTrail(root, toks, parents, parents[j]);
      assert parents'[j + 1] == parents[j] + 1 && toks'[j + 1] == toks[j];
      ConcatAssoc([root], Trail(toks, parents, parents[j]), [toks[j]]);
    }
  }

  /** The sampled tokens of one round, leaf by leaf, and the nodes they hang below. */
  ghost function Flat(tops: seq<seq<Token>>): seq<Token> {
    if tops == [] then [] else Flat(tops[..|tops| - 1]) + tops[|tops| - 1]
  }

  ghost function Below(leaf: int, tops: seq<seq<Token>>): (r: seq<int>)
    ensures |r| == |Flat(tops)|
  {
    if tops == [] then []
    else Below(leaf, tops[..|tops| - 1]) + seq(|tops[|tops| - 1]|, _ => leaf + |tops| - 1)
  }

  /** Every token below a leaf is stored in the slot of this leaf. */
  ghost function Spread(slots: seq<int>, tops: seq<seq<Token>>): (r: seq<int>)
    requires |slots| == |tops|
    ensures |r| == |Flat(tops)|
  {
    if tops == [] then []
    else
      var n := |tops| - 1;
      Spread(slots[..n], tops[..n]) + seq(|tops[n]|, _ => slots[n])
  }

  lemma FlatSnoc(leaf: int, tops: seq<seq<Token>>, top: seq<Token>)
    ensures Flat(tops + [top]) == Flat(tops) + top
    ensures Below(leaf, tops + [top]) == Below(leaf, tops) + seq(|top|, _ => leaf + |tops|)
  {
    assert (tops + [top])[..|tops|] == tops;
  }

  lemma SpreadSnoc(slots: seq<int>, tops: seq<seq<Token>>, slot: int, top: seq<Token>)
    requires |slots| == |tops|
    ensures Spread(slots + [slot], tops + [top]) == Spread(slots, tops) + seq(|top|, _ => slot)
  {
    assert (tops + [top])[..|tops|] == tops && (slots + [slot])[..|slots|] == slots;
  }

  /** What one more leaf adds to tokens, parents and slots. */
  lemma GrowStep(toks: seq<Token>, parents: seq<int>, used: seq<int>, leaf: int, slots: seq<int>,
                 tops: seq<seq<Token>>, i: nat)
    requires |slots| == |tops| && i < |tops|
    ensures toks + Flat(tops[..i]) + tops[i] == toks + Flat(tops[..i + 1])
    ensures parents + Below(leaf, tops[..i]) + seq(|tops[i]|, _ => leaf + i) == parents + Below(leaf, tops[..i + 1])
    ensures used + Spread(slots[..i], tops[..i]) + seq(|tops[i]|, _ => slots[i])
         == used + Spread(slots[..i + 1], tops[..i + 1])
  {
    TakeNext(tops, i);
    TakeNext(slots, i);
    FlatSnoc(leaf, tops[..i], tops[i]);
    SpreadSnoc(slots[..i], tops[..i], slots[i], tops[i]);
    ConcatAssoc(toks, Flat(tops[..i]), tops[i]);
    ConcatAssoc(parents, Below(leaf, tops[..i]), seq(|tops[i]|, _ => leaf + i));
    ConcatAssoc(used, Spread(slots[..i], tops[..i]), seq(|tops[i]|, _ => slots[i]));
  }

  /** The k-th token sampled for the l-th leaf, its parent, and its slot. */
  lemma {:induction false} FlatAt(leaf: int, slots: seq<int>, tops: seq<seq<Token>>, l: nat, k: nat)
    requires |slots| == |tops| && l < |tops| && k < |tops[l]|
    ensures var i := |Flat(tops[..l])| + k;
            && i < |Flat(tops)| && Flat(tops)[i] == tops[l][k]
            && Below(leaf, tops)[i] == leaf + l && Spread(slots, tops)[i] == slots[l]
  {
    var n := |tops| - 1;
    if l < n {
      FlatAt(leaf, slots[..n], tops[..n], l, k);
      TakeFewer(tops, n, l);
    } else {
      FlatLast(leaf, slots, tops, k);
    }
  }

  lemma FlatLast(leaf: int, slots: seq<int>, tops: seq<seq<Token>>, k: nat)
    requires |slots| == |tops| > 0 && k < |tops[|tops| - 1]|
    ensures var n := |tops| - 1;
            var i := |Flat(tops[..n])| + k;
            && i < |Flat(tops)| && Flat(tops)[i] == tops[n][k]
            && Below(leaf, tops)[i] == leaf + n && Spread(slots, tops)[i] == slots[n]
  {
  }

  // ---------------------------------------------------------------- whole proposals

  /** All tokens of a proposal behind the first ones, round by round. */
  ghost function Drafted(rounds: seq<seq<seq<Token>>>): seq<Token> {
    if rounds == [] then [] else Drafted(rounds[..|rounds| - 1]) + Flat(rounds[|rounds| - 1])
  }

  /** The first leaf of the tree after these rounds. */
  ghost function FirstLeaf(rounds: seq<seq<seq<Token>>>): nat {
    if rounds == [] then 0 else FirstLeaf(rounds[..|rounds| - 1]) + |rounds[|rounds| - 1]|
  }

  ghost function Hung(rounds: seq<seq<seq<Token>>>): (r: seq<int>)
    ensures |r| == |Drafted(rounds)|
  {
    if rounds == [] then []
    else
      var before := rounds[..|rounds| - 1];
      Hung(before) + Below(FirstLeaf(before), rounds[|rounds| - 1])
  }

  ghost predicate SlotsFit(slots: seq<seq<int>>, rounds: seq<seq<seq<Token>>>) {
    |slots| == |rounds| && forall i :: 0 <= i < |rounds| ==> |slots[i]| == |rounds[i]|
  }

  ghost function AllSlots(slots: seq<seq<int>>, rounds: seq<seq<seq<Token>>>): (r: seq<int>)
    requires SlotsFit(slots, rounds)
    ensures |r| == |Drafted(rounds)|
  {
    if rounds == [] then []
    else
      var n := |rounds| - 1;
      AllSlots(slots[..n], rounds[..n]) + Spread(slots[n], rounds[n])
  }

  lemma RoundsSnoc(slots: seq<seq<int>>, rounds: seq<seq<seq<Token>>>, i: nat)
    requires SlotsFit(slots, rounds) && i < |rounds|
    ensures SlotsFit(slots[..i], rounds[..i]) && SlotsFit(slots[..i + 1], rounds[..i + 1])
    ensures Drafted(rounds[..i + 1]) == Drafted(rounds[..i]) + Flat(rounds[i])
    ensures FirstLeaf(rounds[..i + 1]) == FirstLeaf(rounds[..i]) + |rounds[i]|
    ensures Hung(rounds[..i + 1]) == Hung(rounds[..i]) + Below(FirstLeaf(rounds[..i]), rounds[i])
    ensures AllSlots(slots[..i + 1], rounds[..i + 1]) == AllSlots(slots[..i], rounds[..i]) + Spread(slots[i], rounds[i])
  {
    assert rounds[..i + 1][..i] == rounds[..i] && slots[..i + 1][..i] == slots[..i];
  }

  /** The slots of a round are those of its leaves. */
  lemma {:induction false} SpreadIs(slots: seq<int>, tops: seq<seq<Token>>, x: int)
    requires |slots| == |tops| && forall l :: 0 <= l < |tops| ==> tops[l] != []
    ensures x in Spread(slots, tops) <==> x in slots
  {
    if tops != [] {
      var n := |tops| - 1;
      SpreadIs(slots[..n], tops[..n], x);
      TakeNext(slots, n);
      TakeAll(slots);
      var last := seq(|tops[n]|, _ => slots[n]);
      assert last[0] in last;
    }
  }

  /** Every leaf of the round gets a child. */
  ghost predicate NoneBare(tops: seq<seq<Token>>) {
    forall l :: 0 <= l < |tops| ==> tops[l] != []
  }

  /** The slots of a proposal are those handed to its rounds. */
  lemma {:induction false} AllSlotsAre(slots: seq<seq<int>>, rounds: seq<seq<seq<Token>>>, x: int)
    requires SlotsFit(slots, rounds)
    requires forall i {:trigger NoneBare(rounds[i])} :: 0 <= i < |rounds| ==> NoneBare(rounds[i])
    ensures x in AllSlots(slots, rounds) <==> exists i :: 0 <= i < |slots| && x in slots[i]
  {
    if rounds != [] {
      var n := |rounds| - 1;
      var before, rounds' := slots[..n], rounds[..n];
      forall i | 0 <= i < n ensures NoneBare(rounds'[i]) {
        assert NoneBare(rounds[i]);
      }
      AllSlotsAre(before, rounds', x);
      assert NoneBare(rounds[n]);
      SpreadIs(slots[n], rounds[n], x);
      InFrontOrLast(before, slots, x);
    }
  }

  lemma InFrontOrLast(before: seq<seq<int>>, slots: seq<seq<int>>, x: int)
    requires slots != [] && before == slots[..|slots| - 1]
    ensures (exists i :: 0 <= i < |slots| && x in slots[i])
            <==> (exists i :: 0 <= i < |before| && x in before[i]) || x in slots[|slots| - 1]
  {
    assert forall i :: 0 <= i < |before| ==> before[i] == slots[i];
    if exists i :: 0 <= i < |before| && x in before[i] {
      var i :| 0 <= i < |before| && x in before[i];
      assert x in slots[i];
    }
  }

  /** Each leaf gets as many children as the tree is wide. */
  ghost predicate Wide(tops: seq<seq<Token>>, width: nat) {
    tops != [] && forall i :: 0 <= i < |tops| ==> |tops[i]| == width
  }

  /** How many leaves the tree has before round i. */
  ghost function LeavesBefore(width: nat, rounds: seq<seq<seq<Token>>>, i: nat): nat
    requires i <= |rounds|
  {
    if i == 0 then width else |Flat(rounds[i - 1])|
  }

  /** Round i samples as many tokens as the tree is wide for every leaf there is. */
  ghost predicate Fits(width: nat, rounds: seq<seq<seq<Token>>>, slots: seq<seq<int>>, i: nat)
    requires i < |rounds| == |slots|
  {
    Wide(rounds[i], width) && |slots[i]| == |rounds[i]| == LeavesBefore(width, rounds, i)
  }

  lemma FitsSlots(width: nat, rounds: seq<seq<seq<Token>>>, slots: seq<seq<int>>)
    requires |slots| == |rounds|
    requires forall i {:trigger Fits(width, rounds, slots, i)} :: 0 <= i < |rounds| ==> Fits(width, rounds, slots, i)
    ensures SlotsFit(slots, rounds)
    ensures width > 0 ==> forall i {:trigger NoneBare(rounds[i])} :: 0 <= i < |rounds| ==> NoneBare(rounds[i])
  {
    forall i | 0 <= i < |rounds| ensures |slots[i]| == |rounds[i]| && (width > 0 ==> NoneBare(rounds[i])) {
      assert Fits(width, rounds, slots, i);
    }
  }

  lemma ProposalSlots(width: nat, slot: int, slots: seq<seq<int>>, rounds: seq<seq<seq<Token>>>, all: seq<int>)
    requires width > 0 && SlotsFit(slots, rounds) && all == seq(width, _ => slot) + AllSlots(slots, rounds)
    requires forall i {:trigger NoneBare(rounds[i])} :: 0 <= i < |rounds| ==> NoneBare(rounds[i])
    ensures forall x :: x in all <==> x == slot || exists i :: 0 <= i < |slots| && x in slots[i]
  {
    var first := seq(width, _ => slot);
    assert first[0] in first;
    forall x ensures x in all <==> x == slot || exists i :: 0 <= i < |slots| && x in slots[i] {
      AllSlotsAre(slots, rounds, x);
    }
  }

  lemma LevelSize(tops: seq<seq<Token>>, width: nat)
    requires Wide(tops, width) && width > 0
    ensures width == 1 ==> |Flat(tops)| == |tops|
    ensures width > 1 ==> |Flat(tops)| > 1
  {
    if |tops| > 1 {
      LevelSize(tops[..|tops| - 1], width);
    } else {
      assert Flat(tops[..0]) == [];
    }
  }

  lemma OneBelow(leaf: int, tops: seq<seq<Token>>)
    requires |tops| == 1 && |tops[0]| == 1
    ensures Below(leaf, tops) == [leaf]
  {
    assert tops == [] + [tops[0]];
    FlatSnoc(leaf, [], tops[0]);
  }

  lemma StaysBelow<T>(s: seq<T>, more: seq<T>)
    ensures s[..|s|] == s == (s + more)[..|s|]
  {
  }

  // ---------------------------------------------------------------- one request

  /** The part of a KV cache that is still a tree. */
  datatype Tree = Tree(toks: seq<Token>, parents: seq<int>)

  class SpeculativeRequest {
    const width: nat
    const prompt: seq<Token>
    const verify: RequestModelState
    const draft: RequestModelState
    var verifyKv: seq<Token>
    var draftKv: seq<Token>
    var draftTree: Tree

    ghost predicate States()
      reads this, verify, draft
    {
      && verify != draft && verify.Valid() && draft.Valid() && width > 0
      && draft.committed != [] && draft.committed <= verify.committed
    }

    /** The large model has seen all but the last committed token. */
    ghost predicate VerifyReady()
      reads this, verify
    {
      verify.committed != [] && verifyKv == prompt + verify.committed[..|verify.committed| - 1]
    }

    /** Between rounds: each KV cache holds all but the last token committed to its model; the draft model may lag. */
    ghost predicate Aligned()
      reads this, verify, draft
    {
      && States() && VerifyReady() && draft.drafts == [] && verify.numNext == 1 && draft.numNext == 1
      && draftTree == Tree([], []) && draftKv == prompt + draft.committed[..|draft.committed| - 1]
    }

    /** What the draft model has seen of the draft tokens: all before the newest level. */
    ghost predicate Seen(start: nat)
      reads this, draft
    {
      start <= |draft.drafts| == |draft.parents| &&
      if width == 1 then
        Chain(draft.parents) && draftTree == Tree([], []) && draftKv == prompt + draft.committed + draft.drafts[..start]
      else draftTree == Tree(draft.drafts[..start], draft.parents[..start]) && draftKv == prompt + draft.committed
    }

    /** While drafting: the newest level has one token in a chain, and more in a tree. */
    ghost predicate Proposed(start: nat)
      reads this, verify, draft
    {
      && States() && VerifyReady() && draft.committed == verify.committed
      && Level(draft.firstChild, start) && Seen(start)
      && start < |draft.drafts| && (width == 1 <==> |draft.drafts| == start + 1)
    }

    constructor (width: nat, prompt: seq<Token>, first: Token)
      requires width > 0
      ensures Aligned() && this.width == width && this.prompt == prompt
      ensures verify.committed == draft.committed == [first]
    {
      this.width, this.prompt := width, prompt;
      verify := new RequestModelState(0, []);
      draft := new RequestModelState(0, []);
      verifyKv, draftKv, draftTree := prompt, prompt, Tree([], []);
      new;
      verify.CommitToken(first);
      draft.CommitToken(first);
      assert [first][..0] == [] && prompt + [] == prompt;
    }

    // -------------------------------------------------------------- drafting

    /** The draft tokens without a child: what the next round feeds. */
    method Leaves(ghost start: nat) returns (leaves: seq<int>)
      requires draft.Valid() && Level(draft.firstChild, start)
      ensures |leaves| == |draft.drafts| - start && forall i :: 0 <= i < |leaves| ==> leaves[i] == start + i
    {
      leaves := [];
      for j := 0 to |draft.drafts|
        invariant |leaves| == if j < start then 0 else j - start
        invariant forall i :: 0 <= i < |leaves| ==> leaves[i] == start + i
      {
        if draft.firstChild[j] == -1 {
          leaves := leaves + [j];
        }
      }
    }

    /** Feeds the newest token of the draft model, and those that it lacks against the large model. */
    method CatchUp()
      requires Aligned()
      modifies this`draftKv, draft`committed, draft`appeared, draft`numNext
      ensures States() && VerifyReady() && draft.committed == verify.committed && draft.numNext == 0
      ensures draftKv == prompt + draft.committed
    {
      var known := |draft.committed|;
      draftKv := draftKv + [draft.committed[known - 1]];
      TakeNext(draft.committed, known - 1);
      ConcatAssoc(prompt, draft.committed[..known - 1], [draft.committed[known - 1]]);
      TakeAll(draft.committed);
      for j := known to |verify.committed|
        invariant States() && VerifyReady() && draft.committed == verify.committed[..j]
        invariant draftKv == prompt + draft.committed
      {
        TakeNext(verify.committed, j);
        ConcatAssoc(prompt, draft.committed, [verify.committed[j]]);
        CommitDraft(verify.committed[j]);
        draftKv := draftKv + [verify.committed[j]];
      }
      TakeAll(verify.committed);
      draft.numNext := 0;
    }

    method CommitDraft(t: Token)
      requires States() && VerifyReady() && draft.committed + [t] <= verify.committed
      modifies draft`committed, draft`appeared, draft`numNext
      ensures States() && VerifyReady() && draft.committed == old(draft.committed) + [t]
    {
      draft.CommitToken(t);
    }

    /** Feeds the leaves: one token goes to the sequence, several go to the tree part of the KV cache. */
    method FeedLeaves(ghost start: nat)
      requires Proposed(start)
      modifies this`draftKv, this`draftTree
      ensures States() && VerifyReady() && draft.committed == verify.committed && Seen(|draft.drafts|)
    {
      var leaves := Leaves(start);
      var toks, parents := [], [];
      for i := 0 to |leaves|
        invariant toks == draft.drafts[start..start + i] && parents == draft.parents[start..start + i]
      {
        toks := toks + [draft.drafts[leaves[i]]];
        parents := parents + [draft.parents[leaves[i]]];
      }
      assert draft.drafts == draft.drafts[..start] + toks && draft.parents == draft.parents[..start] + parents;
      assert draft.drafts[..|draft.drafts|] == draft.drafts && draft.parents[..|draft.parents|] == draft.parents;
      if |toks| == 1 {
        ConcatAssoc(prompt + draft.committed, draft.drafts[..start], toks);
        draftKv := draftKv + toks;
      } else {
        draftTree := Tree(draftTree.toks + toks, draftTree.parents + parents);
      }
    }

    /** Hangs the sampled tokens below one leaf, or below the root. */
    method AddChildren(leaf: int, top: seq<Token>, slot: int)
      requires draft.Valid() && -1 <= leaf < |draft.drafts| && top != []
      modifies draft`drafts, draft`slots, draft`parents, draft`firstChild
      ensures draft.Valid() && draft.drafts == old(draft.drafts) + top
      ensures draft.parents == old(draft.parents) + seq(|top|, _ => leaf)
      ensures draft.slots == old(draft.slots) + seq(|top|, _ => slot)
      ensures forall j :: |old(draft.drafts)| <= j < |draft.drafts| ==> draft.firstChild[j] == -1
      ensures forall j :: 0 <= j < |old(draft.drafts)| ==>
                (draft.firstChild[j] == -1 <==> j != leaf && old(draft.firstChild)[j] == -1)
    {
      ghost var n := |draft.drafts|;
      for k := 0 to |top|
        invariant draft.Valid() && draft.drafts == old(draft.drafts) + top[..k]
        invariant draft.parents == old(draft.parents) + seq(k, _ => leaf)
        invariant draft.slots == old(draft.slots) + seq(k, _ => slot)
        invariant forall j :: n <= j < n + k ==> draft.firstChild[j] == -1
        invariant forall j :: 0 <= j < n ==>
                    (draft.firstChild[j] == -1 <==> (k == 0 || j != leaf) && old(draft.firstChild)[j] == -1)
      {
        TakeNext(top, k);
        ConcatAssoc(old(draft.drafts), top[..k], [top[k]]);
        draft.AddDraftToken(top[k], slot, leaf);
      }
      TakeAll(top);
    }

    /** Hangs the sampled tokens below the leaves. */
    method Grow(ghost start: nat, leaves: seq<int>, tops: seq<seq<Token>>, slots: seq<int>)
      requires draft.Valid() && Level(draft.firstChild, start)
      requires |leaves| == |draft.drafts| - start && forall i :: 0 <= i < |leaves| ==> leaves[i] == start + i
      requires Wide(tops, width) && width > 0 && |tops| == |slots| == |leaves|
      modifies draft`drafts, draft`slots, draft`parents, draft`firstChild
      ensures draft.Valid() && Level(draft.firstChild, |old(draft.drafts)|)
      ensures draft.drafts == old(draft.drafts) + Flat(tops)
      ensures draft.parents == old(draft.parents) + Below(start, tops)
      ensures draft.slots == old(draft.slots) + Spread(slots, tops)
    {
      ghost var n := |draft.drafts|;
      for i := 0 to |leaves|
        invariant draft.Valid()
        invariant draft.drafts == old(draft.drafts) + Flat(tops[..i])
        invariant draft.parents == old(draft.parents) + Below(start, tops[..i])
        invariant draft.slots == old(draft.slots) + Spread(slots[..i], tops[..i])
        invariant forall j :: 0 <= j < n ==> (draft.firstChild[j] == -1 <==> start + i <= j)
        invariant forall j :: n <= j < |draft.drafts| ==> draft.firstChild[j] == -1
      {
        GrowStep(old(draft.drafts), old(draft.parents), old(draft.slots), start, slots, tops, i);
        AddChildren(leaves[i], tops[i], slots[i]);
      }
      TakeAll(tops);
      TakeAll(slots);
    }

    /** The first round: the sampled tokens hang below the last committed token. */
    method FirstRound(top: seq<Token>, slot: int)
      requires Aligned() && |top| == width
      modifies this`draftKv, draft
      ensures Proposed(0) && verify.committed == old(verify.committed)
      ensures draft.drafts == top && draft.parents == seq(width, _ => -1)
      ensures draft.slots == old(draft.slots) + seq(width, _ => slot)
    {
      CatchUp();
      AddChildren(-1, top, slot);
      assert draft.drafts[..0] == [] && draft.parents[..0] == [];
      assert prompt + draft.committed + [] == prompt + draft.committed;
    }

    /** A later round: the leaves are fed, and the sampled tokens hang below them. */
    method NextRound(ghost start: nat, tops: seq<seq<Token>>, slots: seq<int>)
      requires Proposed(start) && Wide(tops, width) && |tops| == |slots| == |draft.drafts| - start
      modifies this`draftKv, this`draftTree, draft`drafts, draft`slots, draft`parents, draft`firstChild
      ensures Proposed(|old(draft.drafts)|)
      ensures draft.drafts == old(draft.drafts) + Flat(tops)
      ensures draft.parents == old(draft.parents) + Below(start, tops)
      ensures draft.slots == old(draft.slots) + Spread(slots, tops)
    {
      ghost var n, drafts, parents := |draft.drafts|, draft.drafts, draft.parents;
      FeedLeaves(start);
      var leaves := Leaves(start);
      LevelSize(tops, width);
      Grow(start, leaves, tops, slots);
      StaysBelow(drafts, Flat(tops));
      StaysBelow(parents, Below(start, tops));
      if width == 1 {
        OneBelow(start, tops);
      }
    }

    /** All rounds of one proposal. */
    method Propose(top: seq<Token>, slot: int, rounds: seq<seq<seq<Token>>>, slots: seq<seq<int>>)
      returns (ghost start: nat)
      requires Aligned() && |top| == width && |slots| == |rounds|
      requires forall i {:trigger Fits(width, rounds, slots, i)} :: 0 <= i < |rounds| ==> Fits(width, rounds, slots, i)
      modifies this`draftKv, this`draftTree, draft
      ensures Proposed(start) && verify.committed == old(verify.committed) && start == FirstLeaf(rounds)
      ensures draft.drafts == top + Drafted(rounds) && draft.parents == seq(width, _ => -1) + Hung(rounds)
      ensures SlotsFit(slots, rounds) && draft.slots == seq(width, _ => slot) + AllSlots(slots, rounds)
      ensures forall x :: x in draft.slots <==> x == slot || exists i :: 0 <= i < |slots| && x in slots[i]
    {
      FirstRound(top, slot);
      FitsSlots(width, rounds, slots);
      start := 0;
      for i := 0 to |rounds|
        invariant Proposed(start) && verify.committed == old(verify.committed) && start == FirstLeaf(rounds[..i])
        invariant |draft.drafts| - start == LeavesBefore(width, rounds, i)
        invariant draft.drafts == top + Drafted(rounds[..i])
        invariant draft.parents == seq(width, _ => -1) + Hung(rounds[..i])
        invariant SlotsFit(slots[..i], rounds[..i])
        invariant draft.slots == seq(width, _ => slot) + AllSlots(slots[..i], rounds[..i])
      {
        ghost var n := |draft.drafts|;
        assert Fits(width, rounds, slots, i);
        RoundsSnoc(slots, rounds, i);
        ConcatAssoc(top, Drafted(rounds[..i]), Flat(rounds[i]));
        ConcatAssoc(seq(width, _ => -1), Hung(rounds[..i]), Below(start, rounds[i]));
        ConcatAssoc(seq(width, _ => slot), AllSlots(slots[..i], rounds[..i]), Spread(slots[i], rounds[i]));
        NextRound(start, rounds[i], slots[i]);
        start := n;
      }
      TakeAll(rounds);
      TakeAll(slots);
      ProposalSlots(width, slot, slots, rounds, draft.slots);
    }

    // -------------------------------------------------------------- verification

    method CommitPair(t: Token)
      requires States() && draft.committed == verify.committed
      modifies verify`committed, verify`appeared, verify`numNext, draft`committed, draft`appeared, draft`numNext
      ensures States() && draft.committed == verify.committed == old(verify.committed) + [t]
    {
      verify.CommitToken(t);
      draft.CommitToken(t);
    }

    method CommitBoth(toks: seq<Token>)
      requires States() && draft.committed == verify.committed
      modifies verify`committed, verify`appeared, verify`numNext, draft`committed, draft`appeared, draft`numNext
      ensures States() && draft.committed == verify.committed == old(verify.committed) + toks
    {
      for i := 0 to |toks|
        invariant States() && draft.committed == verify.committed == old(verify.committed) + toks[..i]
      {
        CommitPair(toks[i]);
        TakeNext(toks, i);
        ConcatAssoc(old(verify.committed), toks[..i], [toks[i]]);
      }
      TakeAll(toks);
    }

    /**
     Verifies the draft. The sampler returns the tokens on the way to draft token `last` (-1 if it
     accepts none) and one more token; the draft slots are given back.
     */
    method Verify(ghost start: nat, last: int, results: seq<Token>) returns (removed: seq<int>)
      requires Proposed(start) && -1 <= last < |draft.drafts| && results != []
      requires results[..|results| - 1] == Trail(draft.drafts, draft.parents, last)
      modifies this, verify, draft
      ensures Aligned() && draft.committed == verify.committed == old(verify.committed) + results
      ensures NoDup(removed) && forall x :: x in removed <==> x in old(draft.slots)
    {
      ghost var c := verify.committed;
      var root := draft.committed[|draft.committed| - 1];
      CommitBoth(results);
      UpdateDraftKv(start, c, last, results);
      UpdateVerifyKv(c, root, last, results);
      removed := EndRound();
    }

    /**
     A whole round: the proposal is verified, the sampler accepts the way to some draft token, and
     the slots that come back are exactly those that were handed out.
     */
    method Round(top: seq<Token>, slot: int, rounds: seq<seq<seq<Token>>>, slots: seq<seq<int>>, accept: int,
                 next: Token)
      returns (accepted: seq<Token>, removed: seq<int>, ghost last: int)
      requires Aligned() && |top| == width && |slots| == |rounds|
      requires forall i {:trigger Fits(width, rounds, slots, i)} :: 0 <= i < |rounds| ==> Fits(width, rounds, slots, i)
      modifies this, verify, draft
      ensures Aligned() && draft.committed == verify.committed == old(verify.committed) + accepted + [next]
      ensures var toks, parents := top + Drafted(rounds), seq(width, _ => -1) + Hung(rounds);
              && |toks| == |parents| && TreeOk(parents) && -1 <= last < |toks|
              && (-1 <= accept < |toks| ==> last == accept) && accepted == Trail(toks, parents, last)
      ensures NoDup(removed)
      ensures forall x :: x in removed <==> x == slot || exists i :: 0 <= i < |slots| && x in slots[i]
    {
      ghost var start := Propose(top, slot, rounds, slots);
      var node := if -1 <= accept < |draft.drafts| then accept else -1;
      last := node;
      accepted := NodesTo(Tree(draft.drafts, draft.parents), node);
      assert (accepted + [next])[..|accepted|] == accepted;
      ConcatAssoc(old(verify.committed), accepted, [next]);
      removed := Verify(start, node, accepted + [next]);
    }

    /** The draft tokens go, and the newest token is what either model is fed next. */
    method EndRound() returns (removed: seq<int>)
      requires States() && VerifyReady() && draft.committed == verify.committed
      requires draftTree == Tree([], []) && draftKv == prompt + draft.committed[..|draft.committed| - 1]
      modifies verify`numNext, draft`drafts, draft`slots, draft`parents, draft`firstChild, draft`numNext
      ensures Aligned() && draft.committed == verify.committed
      ensures NoDup(removed) && forall x :: x in removed <==> x in old(draft.slots)
    {
      removed := draft.RemoveAllDraftTokens();
      verify.numNext := 1;
      draft.numNext := 1;
    }

    /** The large model keeps the last committed token and the accepted draft tokens. */
    method UpdateVerifyKv(ghost c: seq<Token>, root: Token, last: int, ghost results: seq<Token>)
      requires draft.Valid() && -1 <= last < |draft.drafts| && c != [] && root == c[|c| - 1] && results != []
      requires results[..|results| - 1] == Trail(draft.drafts, draft.parents, last)
      requires verify.committed == c + results && verifyKv == prompt + c[..|c| - 1]
      modifies this`verifyKv
      ensures VerifyReady()
    {
      RootedTrail(root, draft.drafts, draft.parents, last);
      var kept := NodesTo(Tree([root] + draft.drafts, Rooted(draft.parents)), last + 1);
      verifyKv := verifyKv + kept;
      KeptRoot(prompt, c, results);
    }

    /** The tokens on the way to a node, collected from the node upwards. */
    method NodesTo(tree: Tree, node: int) returns (toks: seq<Token>)
      requires |tree.toks| == |tree.parents| && TreeOk(tree.parents) && -1 <= node < |tree.toks|
      ensures toks == Trail(tree.toks, tree.parents, node)
    {
      toks := [];
      var j := node;
      while j != -1
        invariant -1 <= j <= node
        invariant Trail(tree.toks, tree.parents, j) + toks == Trail(tree.toks, tree.parents, node)
        decreases j
      {
        ConcatAssoc(Trail(tree.toks, tree.parents, tree.parents[j]), [tree.toks[j]], toks);
        toks := [tree.toks[j]] + toks;
        j := tree.parents[j];
      }
    }

    /** What the draft model has seen before the verification, in terms of the tokens committed then. */
    ghost predicate SeenAfter(start: nat, c: seq<Token>)
      reads this, draft
    {
      && draft.Valid() && Level(draft.firstChild, start) && start < |draft.drafts| && width > 0
      && if width == 1 then
           && |draft.drafts| == start + 1 && Chain(draft.parents)
           && draftTree == Tree([], []) && draftKv == prompt + c + draft.drafts[..start]
         else draftTree == Tree(draft.drafts[..start], draft.parents[..start]) && draftKv == prompt + c
    }

    /** The draft model keeps what was accepted, as far as it has seen it: up to the parent of a leaf. */
    method KeepAccepted(ghost start: nat, ghost c: seq<Token>, last: int, node: int, count: nat)
      requires SeenAfter(start, c) && -1 <= last < |draft.drafts|
      requires node == if last >= 0 && draft.firstChild[last] == -1 then draft.parents[last] else last
      requires count == |Trail(draft.drafts, draft.parents, last)|
      modifies this`draftKv, this`draftTree
      ensures draftTree == Tree([], []) && draftKv == prompt + (c + Trail(draft.drafts, draft.parents, node))
    {
      if width == 1 {
        ChainTrail(draft.drafts, draft.parents, last);
        ChainTrail(draft.drafts, draft.parents, node);
        var rollback := |draft.drafts| - count;
        if rollback > 0 {
          CutChain(prompt, c, draft.drafts, last);
          draftKv := draftKv[..|draftKv| - (rollback - 1)];
        } else {
          ConcatAssoc(prompt, c, draft.drafts[..start]);
        }
      } else {
        assert node >= 0 ==> FirstChild(draft.parents, node, draft.firstChild[node]);
        TrailPrefix(draft.drafts, draft.parents, start, node);
        var kept := NodesTo(draftTree, node);
        ConcatAssoc(prompt, c, kept);
        draftKv := draftKv + kept;
        draftTree := Tree([], []);
      }
    }

    /**
     The draft model drops what was not accepted, and is fed the accepted token that it has not
     seen, if there is one.
     */
    method UpdateDraftKv(ghost start: nat, ghost c: seq<Token>, last: int, results: seq<Token>)
      requires SeenAfter(start, c) && -1 <= last < |draft.drafts| && results != []
      requires verify.committed == c + results
      requires results[..|results| - 1] == Trail(draft.drafts, draft.parents, last)
      modifies this`draftKv, this`draftTree
      ensures draftTree == Tree([], []) && draftKv == prompt + verify.committed[..|verify.committed| - 1]
    {
      AllButLast(c, results);
      var leaf := last >= 0 && draft.firstChild[last] == -1;
      KeepAccepted(start, c, last, if leaf then draft.parents[last] else last, |results| - 1);
      if leaf {
        ghost var seen := Trail(draft.drafts, draft.parents, draft.parents[last]);
        LastResult(draft.drafts, draft.parents, last, c, results);
        ConcatAssoc(c, seen, [draft.drafts[last]]);
        ConcatAssoc(prompt, c + seen, [draft.drafts[last]]);
        draftKv := draftKv + [verify.committed[|verify.committed| - 2]];
      }
    }
  }

  /** All committed tokens but the last. */
  lemma AllButLast(c: seq<Token>, results: seq<Token>)
    requires results != []
    ensures (c + results)[..|c + results| - 1] == c + results[..|results| - 1]
  {
  }

  lemma KeptRoot(prompt: seq<Token>, c: seq<Token>, results: seq<Token>)
    requires c != [] && results != []
    ensures prompt + c[..|c| - 1] + ([c[|c| - 1]] + results[..|results| - 1])
         == prompt + (c + results)[..|c + results| - 1]
  {
    var n := |c| - 1;
    AllButLast(c, results);
    assert c == c[..n] + [c[n]];
  }

  /** Rolling a chain back by one less than the rejected tokens leaves the accepted ones. */
  lemma CutChain(prompt: seq<Token>, c: seq<Token>, drafts: seq<Token>, last: int)
    requires -1 <= last < |drafts| - 1
    ensures var kv := prompt + c + drafts[..|drafts| - 1];
            kv[..|kv| - (|drafts| - 2 - last)] == prompt + (c + drafts[..last + 1])
  {
    assert drafts[..|drafts| - 1] == drafts[..last + 1] + drafts[last + 1..|drafts| - 1];
  }

  /** The last accepted draft token is the last but one of all committed tokens. */
  lemma LastResult(drafts: seq<Token>, parents: seq<int>, last: int, c: seq<Token>, results: seq<Token>)
    requires |drafts| == |parents| && TreeOk(parents) && 0 <= last < |drafts| && results != []
    requires results[..|results| - 1] == Trail(drafts, parents, last)
    ensures |results| >= 2 && (c + results)[|c + results| - 2] == drafts[last]
  {
    assert results[..|results| - 1][|results| - 2] == results[|results| - 2];
  }
}
