/** The mask of the tokens that are a prefix of another token. */
module PrefixMask {

  type Bytes = seq<nat>

  /** A token and its id. */
  type Entry = (Bytes, nat)

  // ---------------------------------------------------------------- the order of strings

  predicate Before(a: Bytes, b: Bytes) {
    b != [] && (a == [] || a[0] < b[0] || (a[0] == b[0] && Before(a[1..], b[1..])))
  }

  predicate Less(a: Entry, b: Entry) {
    Before(a.0, b.0) || (a.0 == b.0 && a.1 < b.1)
  }

  lemma {:induction false} BeforeTotal(a: Bytes, b: Bytes)
    ensures a == b || Before(a, b) || Before(b, a)
    ensures Before(a, b) ==> a != b && !Before(b, a)
  {
    if a != [] && b != [] {
      BeforeTotal(a[1..], b[1..]);
      assert a == [a[0]] + a[1..] && b == [b[0]] + b[1..];
    }
  }

  lemma {:induction false} BeforeTrans(a: Bytes, b: Bytes, c: Bytes)
    requires Before(a, b) && Before(b, c)
    ensures Before(a, c)
  {
    if a != [] && a[0] == b[0] && b[0] == c[0] {
      BeforeTrans(a[1..], b[1..], c[1..]);
    }
  }

  lemma LessTrans(a: Entry, b: Entry, c: Entry)
    requires Less(a, b) && Less(b, c)
    ensures Less(a, c)
  {
    if Before(a.0, b.0) && Before(b.0, c.0) {
      BeforeTrans(a.0, b.0, c.0);
    }
  }

  lemma LessTotal(a: Entry, b: Entry)
    ensures a == b || Less(a, b) || Less(b, a)
    ensures Less(a, b) ==> a != b && !Less(b, a)
  {
    BeforeTotal(a.0, b.0);
  }

  lemma {:induction false} ProperPrefixIsBefore(a: Bytes, b: Bytes)
    requires a <= b && a != b
    ensures Before(a, b)
  {
    if a != [] {
      ProperPrefixIsBefore(a[1..], b[1..]);
    }
  }

  /** Whatever lies between a string and an extension of it is an extension of it too. */
  lemma {:induction false} BetweenExtends(a: Bytes, b: Bytes, c: Bytes)
    requires a <= c && (a == b || Before(a, b)) && (b == c || Before(b, c))
    ensures a <= b
  {
    if a != [] && a != b && b != c {
      BeforeTotal(a, b);
      assert a[0] == b[0];
      BetweenExtends(a[1..], b[1..], c[1..]);
      assert a == [a[0]] + a[1..] && b == [b[0]] + b[1..];
    }
  }

  // ---------------------------------------------------------------- the sorted table

  ghost predicate Sorted(s: seq<Entry>) {
    forall i, j :: 0 <= i < j < |s| ==> Less(s[i], s[j])
  }

  /** s holds the first n tokens of the table, each once. */
  ghost predicate Lists(table: seq<Bytes>, n: nat, s: seq<Entry>)
    requires n <= |table|
  {
    && |s| == n
    && (forall e :: e in s ==> e.1 < n && e.0 == table[e.1])
    && (forall id :: 0 <= id < n ==> (table[id], id) in s)
  }

  /** Puts a new entry where the order wants it. */
  method Insert(s: seq<Entry>, e: Entry) returns (r: seq<Entry>)
    requires Sorted(s) && e !in s
    ensures Sorted(r) && |r| == |s| + 1 && forall x :: x in r <==> x == e || x in s
  {
    var k := 0;
    while k < |s| && Less(s[k], e)
      invariant 0 <= k <= |s| && forall i :: 0 <= i < k ==> Less(s[i], e)
    {
      k := k + 1;
    }
    forall j | k <= j < |s| ensures Less(e, s[j]) {
      assert s[k] in s;
      LessTotal(s[k], e);
      if k < j {
        LessTrans(e, s[k], s[j]);
      }
    }
    r := s[..k] + [e] + s[k..];
    assert s == s[..k] + s[k..];
  }

  /** All tokens of the table, sorted by string and then by id. */
  method SortTokens(table: seq<Bytes>) returns (s: seq<Entry>)
    ensures Sorted(s) && Lists(table, |table|, s)
  {
    s := [];
    for id := 0 to |table|
      invariant Sorted(s) && Lists(table, id, s)
    {
      s := Insert(s, (table[id], id));
    }
  }

  // ---------------------------------------------------------------- the mask

  /** The token is a proper prefix of some token, or the same as a token with a greater id. */
  ghost predicate IsPrefixToken(table: seq<Bytes>, id: nat)
    requires id < |table|
  {
    exists other :: 0 <= other < |table| && Extends(table, id, other)
  }

  predicate Extends(table: seq<Bytes>, id: nat, other: nat)
    requires id < |table| && other < |table|
  {
    table[id] <= table[other] && (table[id] != table[other] || id < other)
  }

  ghost predicate MaskOk(table: seq<Bytes>, mask: seq<bool>) {
    |mask| == |table| && forall id :: 0 <= id < |mask| ==> (mask[id] <==> IsPrefixToken(table, id))
  }

  /** It is enough to look at the next token in the order. */
  lemma NeighbourDecides(table: seq<Bytes>, s: seq<Entry>, k: nat)
    requires Sorted(s) && Lists(table, |table|, s) && k < |s|
    ensures s[k].1 < |table|
    ensures IsPrefixToken(table, s[k].1) <==> k + 1 < |s| && s[k].0 <= s[k + 1].0
  {
    var e := s[k];
    assert e in s;
    if k + 1 < |s| && e.0 <= s[k + 1].0 {
      var next := s[k + 1];
      assert next in s && Less(e, next);
      BeforeTotal(e.0, next.0);
      assert Extends(table, e.1, next.1);
    }
    if IsPrefixToken(table, e.1) {
      var other :| 0 <= other < |table| && Extends(table, e.1, other);
      LaterExtension(table, s, k, other);
    }
  }

  lemma LaterExtension(table: seq<Bytes>, s: seq<Entry>, k: nat, other: nat)
    requires Sorted(s) && Lists(table, |table|, s) && k < |s| && other < |table|
    requires s[k].1 < |table| && s[k].0 == table[s[k].1] && Extends(table, s[k].1, other)
    ensures k + 1 < |s| && s[k].0 <= s[k + 1].0
  {
    var e, o := s[k], (table[other], other);
    if e.0 != o.0 {
      ProperPrefixIsBefore(e.0, o.0);
    }
    assert Less(e, o) && o in s;
    var m :| 0 <= m < |s| && s[m] == o;
    LessTotal(e, o);
    assert k < m;
    assert Less(s[k], s[k + 1]);
    if k + 1 < m {
      assert Less(s[k + 1], s[m]);
    }
    BetweenExtends(e.0, s[k + 1].0, o.0);
  }

  /** Two places of the sorted table hold different ids. */
  lemma IdsDiffer(table: seq<Bytes>, s: seq<Entry>, i: nat, j: nat)
    requires Sorted(s) && Lists(table, |table|, s) && i < j < |s|
    ensures s[i].1 != s[j].1
  {
    assert s[i] in s && s[j] in s;
    LessTotal(s[i], s[j]);
  }

  /** Every token has its place. */
  lemma PlaceOf(table: seq<Bytes>, s: seq<Entry>, id: nat) returns (k: nat)
    requires Lists(table, |table|, s) && id < |table|
    ensures k < |s| && s[k].1 == id
  {
    assert (table[id], id) in s;
    k :| 0 <= k < |s| && s[k] == (table[id], id);
  }

  class Tokenizer {
    const table: seq<Bytes>
    var mask: seq<bool>

    ghost predicate Valid()
      reads this
    {
      mask != [] ==> MaskOk(table, mask)
    }

    constructor (table: seq<Bytes>)
      ensures Valid() && this.table == table
    {
      this.table, mask := table, [];
    }

    /** Computed on the first call and kept. */
    method GetPrefixTokenMask() returns (r: seq<bool>)
      requires Valid()
      modifies this`mask
      ensures Valid() && r == mask && MaskOk(table, r)
    {
      if mask == [] {
        mask := ScanNeighbours(table);
      }
      r := mask;
    }
  }

  method ScanNeighbours(table: seq<Bytes>) returns (mask: seq<bool>)
    ensures MaskOk(table, mask)
  {
    var s := SortTokens(table);
    mask := seq(|table|, _ => false);
    var k := 0;
    while k + 1 < |table|
      invariant 0 <= k && (k < |table| || k == |table| == 0) && |mask| == |table|
      invariant forall i :: 0 <= i < |s| ==>
                  s[i].1 < |mask| && (mask[s[i].1] <==> i < k && IsPrefixToken(table, s[i].1))
    {
      NeighbourDecides(table, s, k);
      if s[k].0 <= s[k + 1].0 {
        forall i | 0 <= i < |s| && i != k ensures s[i].1 != s[k].1 {
          if i < k {
            IdsDiffer(table, s, i, k);
          } else {
            IdsDiffer(table, s, k, i);
          }
        }
        mask := mask[s[k].1 := true];
      }
      k := k + 1;
    }
    forall id | 0 <= id < |mask| ensures mask[id] <==> IsPrefixToken(table, id) {
      var i := PlaceOf(table, s, id);
      NeighbourDecides(table, s, i);
    }
  }
}
