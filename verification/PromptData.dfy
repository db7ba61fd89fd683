/** Prompt data: cutting a list of inputs into what is processed now and what remains. */
module PromptData {
  import opened Lists
  import opened Tokens

  datatype Data = TokenData(ids: seq<Token>) | ImageData(image: int, length: nat)

  /** One position of a prompt: a token, or one of the positions that an image takes up. */
  datatype Unit = Tok(t: Token) | Pixel(image: int, index: nat)

  function Length(d: Data): nat {
    if d.TokenData? then |d.ids| else d.length
  }

  function TotalLength(ds: seq<Data>): nat {
    if ds == [] then 0 else Length(ds[0]) + TotalLength(ds[1..])
  }

  function Units(d: Data): (u: seq<Unit>)
    ensures |u| == Length(d)
  {
    match d
    case TokenData(ids) => seq(|ids|, i requires 0 <= i < |ids| => Tok(ids[i]))
    case ImageData(image, length) => seq(length, i requires 0 <= i < length => Pixel(image, i))
  }

  function Flatten(ds: seq<Data>): (u: seq<Unit>)
    ensures |u| == TotalLength(ds)
  {
    if ds == [] then [] else Units(ds[0]) + Flatten(ds[1..])
  }

  /** What items stand for, position by position. */
  lemma UnitsAre(d: Data, i: nat)
    requires i < Length(d)
    ensures d.TokenData? ==> |Units(d)| == |d.ids| && Units(d)[i] == Tok(d.ids[i])
    ensures d.ImageData? ==> |Units(d)| == d.length && Units(d)[i] == Pixel(d.image, i)
  {
  }

  /** A prompt of tokens can be read off its units. */
  lemma UnitsInjective(a: seq<Token>, b: seq<Token>)
    requires Units(TokenData(a)) == Units(TokenData(b))
    ensures a == b
  {
    assert |a| == |Units(TokenData(a))| == |b|;
    forall i | 0 <= i < |a| ensures a[i] == b[i] {
      UnitsAre(TokenData(a), i);
      UnitsAre(TokenData(b), i);
    }
  }

  predicate AllTokens(ds: seq<Data>) {
    forall d :: d in ds ==> d.TokenData?
  }

  lemma {:induction false} FlattenConcat(a: seq<Data>, b: seq<Data>)
    ensures Flatten(a + b) == Flatten(a) + Flatten(b)
    ensures TotalLength(a + b) == TotalLength(a) + TotalLength(b)
  {
    if a == [] {
      assert a + b == b;
    } else {
      assert (a + b)[1..] == a[1..] + b;
      FlattenConcat(a[1..], b);
    }
  }

  lemma FlattenOne(d: Data)
    ensures Flatten([d]) == Units(d) && TotalLength([d]) == Length(d)
  {
    assert [d][1..] == [];
  }

  /** Cutting a token item cuts what it stands for. */
  lemma CutTokens(ids: seq<Token>, k: nat)
    requires k <= |ids|
    ensures Flatten([TokenData(ids[..k])]) == Units(TokenData(ids))[..k]
    ensures Flatten([TokenData(ids[k..])]) == Units(TokenData(ids))[k..]
    ensures Flatten([TokenData(ids)]) == Flatten([TokenData(ids[..k])]) + Flatten([TokenData(ids[k..])])
  {
    FlattenOne(TokenData(ids));
    FlattenOne(TokenData(ids[..k]));
    FlattenOne(TokenData(ids[k..]));
  }

  // ---------------------------------------------------------------- splitting

  /** How many whole items lie before position pos. */
  function Kept(ds: seq<Data>, pos: nat): (k: nat)
    ensures k <= |ds|
  {
    if ds == [] || Length(ds[0]) > pos then 0 else 1 + Kept(ds[1..], pos - Length(ds[0]))
  }

  lemma {:induction false} KeptSpec(ds: seq<Data>, pos: nat)
    ensures TotalLength(ds[..Kept(ds, pos)]) <= pos
    ensures Kept(ds, pos) < |ds| ==> TotalLength(ds[..Kept(ds, pos) + 1]) > pos
  {
    if ds != [] && Length(ds[0]) > pos {
      FlattenOne(ds[0]);
      assert ds[..1] == [ds[0]];
    } else if ds != [] {
      var k := Kept(ds[1..], pos - Length(ds[0]));
      KeptSpec(ds[1..], pos - Length(ds[0]));
      assert ds[..k + 1][1..] == ds[1..][..k];
      if k + 1 < |ds| {
        assert ds[..k + 2][1..] == ds[1..][..k + 1];
      }
    }
  }

  /** The cut falls between two items. */
  predicate AtBoundary(ds: seq<Data>, pos: nat) {
    TotalLength(ds[..Kept(ds, pos)]) == pos
  }

  function Reversed(ds: seq<Data>): (r: seq<Data>)
    ensures |r| == |ds|
  {
    if ds == [] then [] else Reversed(ds[1..]) + [ds[0]]
  }

  lemma {:induction false} ReversedSnoc(ds: seq<Data>, d: Data)
    ensures Reversed(ds + [d]) == [d] + Reversed(ds)
  {
    if ds == [] {
      assert ds + [d] == [d] && [d][1..] == [];
    } else {
      assert (ds + [d])[1..] == ds[1..] + [d];
      ReversedSnoc(ds[1..], d);
    }
  }

  lemma {:induction false} ReversedTwice(ds: seq<Data>)
    ensures Reversed(Reversed(ds)) == ds
  {
    if ds != [] {
      ReversedSnoc(Reversed(ds[1..]), ds[0]);
      ReversedTwice(ds[1..]);
    }
  }

  /** A prefix of at most pos units has at most Kept(ds, pos) items. */
  lemma {:induction false} KeptIsLargest(ds: seq<Data>, pos: nat, k: nat)
    requires k <= |ds| && TotalLength(ds[..k]) <= pos
    ensures k <= Kept(ds, pos)
  {
    if k > 0 {
      assert ds[..k][1..] == ds[1..][..k - 1];
      KeptIsLargest(ds[1..], pos - Length(ds[0]), k - 1);
    }
  }

  /** What the split returns, told from the items alone. */
  ghost predicate SplitAt(ds: seq<Data>, pos: nat, lhs: seq<Data>, rhs: seq<Data>) {
    var k := Kept(ds, pos);
    if AtBoundary(ds, pos) then lhs == ds[..k] && rhs == Reversed(ds[k..])
    else
      && k < |ds| && ds[k].TokenData?
      && var n: int := pos - TotalLength(ds[..k]);
      && 0 < n < |ds[k].ids|
      && lhs == ds[..k] + [TokenData(ds[k].ids[..n])]
      && rhs == [TokenData(ds[k].ids[n..])] + ds[k + 1..]
  }

  /** Cuts a prompt at pos. A cut inside an image is refused. */
  method SplitData(original: seq<Data>, total: nat, pos: nat) returns (lhs: seq<Data>, rhs: seq<Data>)
    requires total == TotalLength(original) && pos <= total
    requires Kept(original, pos) < |original| && !AtBoundary(original, pos) ==> original[Kept(original, pos)].TokenData?
    ensures SplitAt(original, pos, lhs, rhs)
  {
    var length;
    lhs, rhs, length := PopWhole(original, total, pos);
    if length > pos {
      var j := |lhs| - 1;
      var last := lhs[j];
      PrefixStep(original, j);
      TakeFewer(original, |lhs|, j);
      KeptHere(original, pos, j);
      var n := |last.ids| - (length - pos);
      SplitAtInside(original, pos, j, n);
      lhs := lhs[..j] + [TokenData(last.ids[..n])];
      rhs := Reversed(rhs + [TokenData(last.ids[n..])]);
    }
  }

  /** The items from k on have been moved, in reverse order, and all of them lie behind the cut. */
  ghost predicate Popped(ds: seq<Data>, pos: nat, k: nat, lhs: seq<Data>, rhs: seq<Data>, length: nat) {
    && k <= |ds| && lhs == ds[..k] && rhs == Reversed(ds[k..]) && pos <= length == TotalLength(lhs)
    && (k < |ds| ==> TotalLength(ds[..k + 1]) > pos)
  }

  lemma PopNone(ds: seq<Data>, pos: nat)
    requires pos <= TotalLength(ds)
    ensures Popped(ds, pos, |ds|, ds, [], TotalLength(ds))
  {
    TakeAll(ds);
  }

  lemma PopOne(ds: seq<Data>, pos: nat, k: nat, lhs: seq<Data>, rhs: seq<Data>, length: nat)
    requires Popped(ds, pos, k, lhs, rhs, length) && length > pos
    ensures k > 0 && lhs[k - 1] == ds[k - 1] && Length(ds[k - 1]) <= length
    ensures length - Length(ds[k - 1]) >= pos ==>
              Popped(ds, pos, k - 1, lhs[..k - 1], rhs + [lhs[k - 1]], length - Length(ds[k - 1]))
  {
    assert lhs != [];
    PrefixStep(ds, k - 1);
    TakeFewer(ds, k, k - 1);
  }

  /** Moves items from the back of lhs to rhs as long as the whole item lies behind the cut. */
  method PopWhole(original: seq<Data>, total: nat, pos: nat) returns (lhs: seq<Data>, rhs: seq<Data>, length: nat)
    requires total == TotalLength(original) && pos <= total
    ensures Popped(original, pos, |lhs|, lhs, rhs, length)
    ensures length > pos ==> lhs != [] && length - Length(lhs[|lhs| - 1]) < pos
    ensures length == pos ==> Kept(original, pos) == |lhs|
  {
    lhs, rhs, length := original, [], total;
    PopNone(original, pos);
    while length > pos
      invariant Popped(original, pos, |lhs|, lhs, rhs, length)
      decreases |lhs|
    {
      PopOne(original, pos, |lhs|, lhs, rhs, length);
      var last := lhs[|lhs| - 1];
      if length - Length(last) < pos {
        return;
      }
      rhs := rhs + [last];
      lhs := lhs[..|lhs| - 1];
      length := length - Length(last);
    }
    KeptHere(original, pos, |lhs|);
  }

  lemma SplitAtInside(ds: seq<Data>, pos: nat, j: nat, n: nat)
    requires j < |ds| && ds[j].TokenData? && 0 < n < |ds[j].ids| && Kept(ds, pos) == j
    requires pos == TotalLength(ds[..j]) + n
    ensures SplitAt(ds, pos, ds[..j] + [TokenData(ds[j].ids[..n])],
                    Reversed(Reversed(ds[j + 1..]) + [TokenData(ds[j].ids[n..])]))
  {
    ReversedSnoc(Reversed(ds[j + 1..]), TokenData(ds[j].ids[n..]));
    ReversedTwice(ds[j + 1..]);
  }

  lemma PrefixStep(ds: seq<Data>, j: nat)
    requires j < |ds|
    ensures TotalLength(ds[..j + 1]) == TotalLength(ds[..j]) + Length(ds[j])
    ensures Flatten(ds[..j + 1]) == Flatten(ds[..j]) + Units(ds[j])
    ensures Reversed(ds[j..]) == Reversed(ds[j + 1..]) + [ds[j]]
  {
    FlattenOne(ds[j]);
    FlattenConcat(ds[..j], [ds[j]]);
    assert ds[..j + 1] == ds[..j] + [ds[j]];
    assert ds[j..][1..] == ds[j + 1..];
  }

  lemma KeptHere(ds: seq<Data>, pos: nat, j: nat)
    requires j <= |ds| && TotalLength(ds[..j]) <= pos
    requires j < |ds| ==> TotalLength(ds[..j + 1]) > pos
    ensures Kept(ds, pos) == j
  {
    KeptIsLargest(ds, pos, j);
    KeptSpec(ds, pos);
    KeptMonotone(ds, j + 1, Kept(ds, pos));
  }

  lemma KeptMonotone(ds: seq<Data>, a: nat, b: nat)
    ensures a <= b <= |ds| ==> TotalLength(ds[..a]) <= TotalLength(ds[..b])
  {
    if a <= b <= |ds| {
      assert ds[..b] == ds[..a] + ds[a..b];
      FlattenConcat(ds[..a], ds[a..b]);
    }
  }

  /** The left part is always exactly the first pos positions. */
  lemma SplitLeft(ds: seq<Data>, pos: nat, lhs: seq<Data>, rhs: seq<Data>)
    requires pos <= TotalLength(ds) && SplitAt(ds, pos, lhs, rhs)
    ensures Flatten(lhs) == Flatten(ds)[..pos]
  {
    var k := Kept(ds, pos);
    KeptSpec(ds, pos);
    assert ds == ds[..k] + ds[k..];
    FlattenConcat(ds[..k], ds[k..]);
    if !AtBoundary(ds, pos) {
      var n := pos - TotalLength(ds[..k]);
      CutTokens(ds[k].ids, n);
      FlattenConcat(ds[..k], [TokenData(ds[k].ids[..n])]);
    }
  }

  lemma JoinParts(a: seq<Data>, l: seq<Data>, r: seq<Data>, u: seq<Data>, b: seq<Data>)
    requires Flatten(u) == Flatten(l) + Flatten(r)
    ensures Flatten((a + l) + (r + b)) == Flatten(a + u + b)
  {
    var A, L, R, B := Flatten(a), Flatten(l), Flatten(r), Flatten(b);
    assert Flatten((a + l) + (r + b)) == (A + L) + (R + B) by {
      FlattenConcat(a + l, r + b);
      FlattenConcat(a, l);
      FlattenConcat(r, b);
    }
    assert Flatten(a + u + b) == (A + (L + R)) + B by {
      FlattenConcat(a + u, b);
      FlattenConcat(a, u);
    }
    ConcatAssoc(A + L, R, B);
    ConcatAssoc(A, L, R);
  }

  lemma JoinCut(a: seq<Data>, ids: seq<Token>, n: nat, b: seq<Data>)
    requires n <= |ids|
    ensures Flatten((a + [TokenData(ids[..n])]) + ([TokenData(ids[n..])] + b)) == Flatten(a + [TokenData(ids)] + b)
  {
    CutTokens(ids, n);
    JoinParts(a, [TokenData(ids[..n])], [TokenData(ids[n..])], [TokenData(ids)], b);
  }

  lemma Around(ds: seq<Data>, k: nat)
    requires k < |ds|
    ensures ds[..k] + [ds[k]] + ds[k + 1..] == ds
  {
  }

  /** A cut inside an item loses nothing. */
  lemma SplitInside(ds: seq<Data>, pos: nat, lhs: seq<Data>, rhs: seq<Data>)
    requires SplitAt(ds, pos, lhs, rhs) && !AtBoundary(ds, pos)
    ensures Flatten(lhs + rhs) == Flatten(ds)
  {
    var k := Kept(ds, pos);
    Around(ds, k);
    JoinCut(ds[..k], ds[k].ids, pos - TotalLength(ds[..k]), ds[k + 1..]);
  }

  // ---------------------------------------------------------------- cuts between items

  lemma {:induction false} ReversedAt(ds: seq<Data>, k: nat)
    requires k < |ds|
    ensures Reversed(ds)[k] == ds[|ds| - 1 - k]
  {
    if k < |ds| - 1 {
      ReversedAt(ds[1..], k);
    }
  }

  /** Of the items, at most one takes up any positions. */
  predicate AtMostOneFull(ds: seq<Data>) {
    forall i, j :: 0 <= i < j < |ds| ==> Length(ds[i]) == 0 || Length(ds[j]) == 0
  }

  /** Any two items that take up positions begin with different units. */
  predicate HeadsDiffer(ds: seq<Data>) {
    forall i, j :: 0 <= i < j < |ds| && Length(ds[i]) > 0 && Length(ds[j]) > 0 ==> Units(ds[i])[0] != Units(ds[j])[0]
  }

  lemma {:induction false} ReversedLength(ds: seq<Data>)
    ensures TotalLength(Reversed(ds)) == TotalLength(ds)
  {
    if ds != [] {
      ReversedLength(ds[1..]);
      FlattenConcat(Reversed(ds[1..]), [ds[0]]);
      FlattenOne(ds[0]);
    }
  }

  /** The items before the i-th take up no positions, the i-th does: it begins the prompt. */
  lemma {:induction false} HeadOf(ds: seq<Data>) returns (i: nat)
    requires TotalLength(ds) > 0
    ensures i < |ds| && Length(ds[i]) > 0 && Flatten(ds)[0] == Units(ds[i])[0]
    ensures forall j :: 0 <= j < i ==> Length(ds[j]) == 0
  {
    if Length(ds[0]) > 0 {
      i := 0;
    } else {
      var rest := ds[1..];
      assert Flatten(ds) == Flatten(rest);
      var k := HeadOf(rest);
      i := k + 1;
      forall j | 0 <= j < i ensures Length(ds[j]) == 0 {
        if j > 0 {
          assert rest[j - 1] == ds[j];
        }
      }
    }
  }

  lemma {:induction false} AllEmpty(ds: seq<Data>)
    requires forall i :: 0 <= i < |ds| ==> Length(ds[i]) == 0
    ensures TotalLength(ds) == 0
  {
    if ds != [] {
      AllEmpty(ds[1..]);
    }
  }

  /** With at most one item that takes up positions, the order does not matter. */
  lemma {:induction false} OneFullReversed(ds: seq<Data>)
    requires AtMostOneFull(ds)
    ensures Flatten(Reversed(ds)) == Flatten(ds)
  {
    if ds != [] {
      var rest := ds[1..];
      OneFullReversed(rest);
      FlattenConcat(Reversed(rest), [ds[0]]);
      FlattenOne(ds[0]);
      if Length(ds[0]) > 0 {
        forall i | 0 <= i < |rest| ensures Length(rest[i]) == 0 {
          assert rest[i] == ds[i + 1];
        }
        AllEmpty(rest);
      }
    }
  }

  /** The last item that takes up positions begins the reversed prompt. */
  lemma TailOf(ds: seq<Data>) returns (i: nat)
    requires TotalLength(ds) > 0
    ensures i < |ds| && Length(ds[i]) > 0 && TotalLength(Reversed(ds)) > 0
    ensures Flatten(Reversed(ds))[0] == Units(ds[i])[0]
    ensures forall j :: i < j < |ds| ==> Length(ds[j]) == 0
  {
    ReversedLength(ds);
    var back := HeadOf(Reversed(ds));
    ReversedAt(ds, back);
    i := |ds| - 1 - back;
    forall j | i < j < |ds| ensures Length(ds[j]) == 0 {
      ReversedAt(ds, |ds| - 1 - j);
    }
  }

  lemma {:induction false} NoneFull(ds: seq<Data>)
    requires TotalLength(ds) == 0
    ensures AtMostOneFull(ds)
  {
    forall i | 0 <= i < |ds| ensures Length(ds[i]) == 0 {
      PrefixStep(ds, i);
      KeptMonotone(ds, i + 1, |ds|);
      assert ds[..|ds|] == ds;
    }
  }

  /** If the reversed items read the same, the first and the last that take up positions begin alike. */
  lemma ReversedHeads(ds: seq<Data>)
    requires HeadsDiffer(ds) && Flatten(Reversed(ds)) == Flatten(ds)
    ensures AtMostOneFull(ds)
  {
    if TotalLength(ds) == 0 {
      NoneFull(ds);
    } else {
      var first := HeadOf(ds);
      var last := TailOf(ds);
      assert first == last;
    }
  }

  /** A cut between two items hands back the items after the cut in reverse order. */
  lemma SplitReverses(ds: seq<Data>, pos: nat, lhs: seq<Data>, rhs: seq<Data>)
    requires SplitAt(ds, pos, lhs, rhs) && AtBoundary(ds, pos)
    ensures var tail := ds[Kept(ds, pos)..];
            Flatten(lhs + rhs) == Flatten(ds) <==> Flatten(Reversed(tail)) == Flatten(tail)
  {
    var k := Kept(ds, pos);
    assert ds == ds[..k] + ds[k..];
    FlattenConcat(ds[..k], ds[k..]);
    FlattenConcat(lhs, rhs);
    var a, b, c := Flatten(lhs), Flatten(rhs), Flatten(ds[k..]);
    if a + b == a + c {
      assert b == (a + b)[|a|..] && c == (a + c)[|a|..];
    }
  }

  /**
   A cut between two items keeps the prompt if at most one of the items after the cut takes up
   any positions, and only then if these items begin with different units.
   */
  lemma SplitBetween(ds: seq<Data>, pos: nat, lhs: seq<Data>, rhs: seq<Data>)
    requires SplitAt(ds, pos, lhs, rhs) && AtBoundary(ds, pos)
    ensures var tail := ds[Kept(ds, pos)..];
            && (AtMostOneFull(tail) ==> Flatten(lhs + rhs) == Flatten(ds))
            && (HeadsDiffer(tail) ==> (Flatten(lhs + rhs) == Flatten(ds) <==> AtMostOneFull(tail)))
  {
    var tail := ds[Kept(ds, pos)..];
    SplitReverses(ds, pos, lhs, rhs);
    if AtMostOneFull(tail) {
      OneFullReversed(tail);
    } else if HeadsDiffer(tail) && Flatten(Reversed(tail)) == Flatten(tail) {
      ReversedHeads(tail);
    }
  }

  // ---------------------------------------------------------------- knowing the lengths alone

  /** Items of the same kinds and lengths. */
  predicate SameShape(a: seq<Data>, b: seq<Data>) {
    |a| == |b| && forall i :: 0 <= i < |a| ==> a[i].TokenData? == b[i].TokenData? && Length(a[i]) == Length(b[i])
  }

  lemma {:induction false} ShapeDecides(a: seq<Data>, b: seq<Data>, pos: nat)
    requires SameShape(a, b)
    ensures Kept(a, pos) == Kept(b, pos) && TotalLength(a) == TotalLength(b)
    ensures AtBoundary(a, pos) <==> AtBoundary(b, pos)
  {
    if a != [] {
      assert SameShape(a[1..], b[1..]);
      var k := Kept(a, pos);
      ShapeDecides(a[1..], b[1..], if k == 0 then 0 else pos - Length(a[0]));
      if k > 0 {
        assert a[..k][1..] == a[1..][..k - 1] && b[..k][1..] == b[1..][..k - 1];
      }
    }
  }

  /** Items of the same shape whose contents name their place. */
  function Labelled(ds: seq<Data>): seq<Data> {
    seq(|ds|, i requires 0 <= i < |ds| =>
      if ds[i].TokenData? then TokenData(seq(Length(ds[i]), _ => i)) else ImageData(i, Length(ds[i])))
  }

  lemma LabelsDiffer(ds: seq<Data>, k: nat)
    requires k <= |ds|
    ensures SameShape(Labelled(ds), ds) && HeadsDiffer(Labelled(ds)[k..])
    ensures AtMostOneFull(Labelled(ds)[k..]) <==> AtMostOneFull(ds[k..])
  {
    var labels := Labelled(ds);
    forall i | 0 <= i < |ds| - k
      ensures Length(labels[k..][i]) == Length(ds[k..][i])
      ensures Length(labels[k..][i]) > 0 ==> Units(labels[k..][i])[0] in {Tok(k + i), Pixel(k + i, 0)}
    {
      assert labels[k..][i] == labels[k + i];
    }
  }

  /** Every prompt of this shape survives a cut at pos. */
  ghost predicate AlwaysKept(ds: seq<Data>, pos: nat) {
    forall ds', lhs, rhs :: SameShape(ds', ds) && SplitAt(ds', pos, lhs, rhs) ==> Flatten(lhs + rhs) == Flatten(ds')
  }

  /**
   Told from kinds and lengths alone, a cut is safe for every prompt exactly when it falls inside
   an item, or at most one of the items after it takes up any positions.
   */
  lemma SplitSafeIff(ds: seq<Data>, pos: nat)
    requires pos <= TotalLength(ds)
    ensures AlwaysKept(ds, pos) <==> !AtBoundary(ds, pos) || AtMostOneFull(ds[Kept(ds, pos)..])
  {
    var k := Kept(ds, pos);
    if !AtBoundary(ds, pos) || AtMostOneFull(ds[k..]) {
      forall ds', lhs, rhs | SameShape(ds', ds) && SplitAt(ds', pos, lhs, rhs)
        ensures Flatten(lhs + rhs) == Flatten(ds')
      {
        ShapeDecides(ds', ds, pos);
        if AtBoundary(ds, pos) {
          assert forall i :: 0 <= i < |ds| - k ==> Length(ds'[k..][i]) == Length(ds[k..][i]);
          SplitBetween(ds', pos, lhs, rhs);
        } else {
          SplitInside(ds', pos, lhs, rhs);
        }
      }
    } else {
      var labels := Labelled(ds);
      LabelsDiffer(ds, k);
      ShapeDecides(labels, ds, pos);
      assert SplitAt(labels, pos, labels[..k], Reversed(labels[k..]));
      SplitBetween(labels, pos, labels[..k], Reversed(labels[k..]));
    }
  }

  /** Two one-token items cut off together come back swapped. */
  lemma SplitSwaps()
    ensures SplitAt([TokenData([1]), TokenData([2])], 0, [], [TokenData([2]), TokenData([1])])
    ensures Flatten([TokenData([2]), TokenData([1])]) != Flatten([TokenData([1]), TokenData([2])])
  {
    var a, b := TokenData([1]), TokenData([2]);
    assert [a, b][1..] == [b] && [b][1..] == [] && [b, a][1..] == [a] && [a][1..] == [];
    assert Reversed([b]) == Reversed([]) + [b] == [b];
    assert Reversed([a, b]) == [b] + [a];
    assert [a, b][0..] == [a, b];
    assert Units(a)[0] == Tok(1) && Units(b)[0] == Tok(2);
    assert Flatten([a, b])[0] == Tok(1) && Flatten([b, a])[0] == Tok(2);
  }
}
