/**
 Stop strings: online matching of several stop strings with partial-match tables, character by
 character inside the tokens, and the release of whole tokens once they can no longer be part of
 a stop string.
 */
module StopStrings {
  import opened Lists
  import opened Tokens

  // ---------------------------------------------------------------- matching

  /** The first k characters of s are the last k characters of t. */
  ghost predicate EndsWith(t: string, s: string, k: int) {
    0 <= k <= |s| && k <= |t| && t[|t| - k..] == s[..k]
  }

  /** k is the length of the longest prefix of s that ends t. */
  ghost predicate Longest(t: string, s: string, k: int) {
    EndsWith(t, s, k) && forall j :: EndsWith(t, s, j) ==> j <= k
  }

  /** Entry i holds the longest proper border of the first i characters; entry 0 holds -1. */
  ghost predicate TableOk(s: string, table: seq<int>) {
    && 1 <= |table| <= |s| && table[0] == -1
    && forall i :: 1 <= i < |table| ==> Longest(s[1..i], s, table[i])
  }

  /** A match one character longer is a match, extended by the next character of s. */
  lemma EndsWithStep(t: string, s: string, ch: char, j: int)
    requires 0 <= j < |s|
    ensures EndsWith(t + [ch], s, j + 1) <==> EndsWith(t, s, j) && s[j] == ch
  {
    var u := t + [ch];
    if j <= |t| {
      assert u[|u| - (j + 1)..] == t[|t| - j..] + [ch];
      assert s[..j + 1] == s[..j] + [s[j]];
    }
  }

  /** Matches shorter than k are the borders of s[..k]. */
  lemma ShorterMatchIsBorder(t: string, s: string, k: int, j: int)
    requires EndsWith(t, s, k) && 0 <= j < k
    ensures EndsWith(t, s, j) <==> EndsWith(s[1..k], s, j)
  {
    assert t[|t| - j..] == t[|t| - k..][k - j..] == s[..k][k - j..];
    assert s[1..k][k - 1 - j..] == s[..k][k - j..];
  }

  /** Of the matches of t, none longer than c can be extended by ch. */
  ghost predicate Candidate(t: string, s: string, ch: char, c: int) {
    && -1 <= c < |s|
    && (c >= 0 ==> EndsWith(t, s, c))
    && forall j :: c < j < |s| && EndsWith(t, s, j) ==> s[j] != ch
  }

  lemma CandidateFalls(t: string, s: string, ch: char, c: int, table: seq<int>)
    requires TableOk(s, table) && 0 <= c < |table| && Candidate(t, s, ch, c) && s[c] != ch
    ensures table[c] < c && Candidate(t, s, ch, table[c])
  {
    if c > 0 {
      assert Longest(s[1..c], s, table[c]);
      assert table[c] <= |s[1..c]| == c - 1;
      ShorterMatchIsBorder(t, s, c, table[c]);
    }
    forall j | table[c] < j < |s| && EndsWith(t, s, j) ensures s[j] != ch {
      if j < c {
        ShorterMatchIsBorder(t, s, c, j);
      }
    }
  }

  lemma CandidateEnds(t: string, s: string, ch: char, c: int)
    requires Candidate(t, s, ch, c) && (c == -1 || s[c] == ch)
    ensures Longest(t + [ch], s, c + 1)
  {
    if c >= 0 {
      EndsWithStep(t, s, ch, c);
    }
    forall j | EndsWith(t + [ch], s, j) ensures j <= c + 1 {
      if j > 0 {
        EndsWithStep(t, s, ch, j - 1);
      }
    }
  }

  /** One step of the matcher. */
  method Advance(s: string, table: seq<int>, start: int, ch: char, ghost t: string) returns (k: int)
    requires TableOk(s, table) && 0 <= start < |table| && Longest(t, s, start)
    ensures 0 <= k <= start + 1 && Longest(t + [ch], s, k)
  {
    var c := start;
    while c != -1 && s[c] != ch
      invariant -1 <= c <= start && Candidate(t, s, ch, c)
    {
      CandidateFalls(t, s, ch, c, table);
      c := table[c];
    }
    CandidateEnds(t, s, ch, c);
    k := c + 1;
  }

  lemma TableGrows(s: string, table: seq<int>, k: int)
    requires TableOk(s, table) && |table| < |s| && Longest(s[1..|table|], s, k)
    ensures TableOk(s, table + [k])
  {
  }

  method CreatePartialMatchTable(s: string) returns (table: seq<int>)
    requires s != ""
    ensures TableOk(s, table) && |table| == |s|
  {
    table := [-1];
    for i := 1 to |s|
      invariant |table| == i && TableOk(s, table)
    {
      var k := 0;
      var c := table[i - 1];
      if c != -1 {
        k := Advance(s, table, c, s[i - 1], s[1..i - 1]);
        assert s[1..i] == s[1..i - 1] + [s[i - 1]];
      }
      TableGrows(s, table, k);
      table := table + [k];
    }
  }

  // ---------------------------------------------------------------- token texts

  ghost function Text(table: seq<string>, ids: seq<Token>): string {
    if ids == [] then ""
    else (if ids[0] < |table| then table[ids[0]] else "") + Text(table, ids[1..])
  }

  lemma {:induction false} TextConcat(table: seq<string>, a: seq<Token>, b: seq<Token>)
    ensures Text(table, a + b) == Text(table, a) + Text(table, b)
  {
    if a == [] {
      assert a + b == b;
    } else {
      assert (a + b)[1..] == a[1..] + b;
      TextConcat(table, a[1..], b);
    }
  }

  // ---------------------------------------------------------------- what stopping means

  /** Some stop string ends the text. */
  ghost predicate Stops(stops: seq<string>, t: string) {
    exists i :: 0 <= i < |stops| && EndsWith(t, stops[i], |stops[i]|)
  }

  ghost predicate StopsNowhere(stops: seq<string>, t: string) {
    forall n {:trigger Stops(stops, t[..n])} :: 0 <= n <= |t| ==> !Stops(stops, t[..n])
  }

  /** t stops, and no shorter prefix of t does. */
  ghost predicate FirstStop(stops: seq<string>, t: string) {
    t != "" && Stops(stops, t) && StopsNowhere(stops, t[..|t| - 1])
  }

  lemma FirstStopShortest(stops: seq<string>, t: string, a: string, b: string)
    requires a <= t && b <= t && FirstStop(stops, a) && Stops(stops, b)
    ensures |a| <= |b|
  {
    assert b == t[..|b|];
    forall n | 0 <= n < |a| ensures !Stops(stops, t[..n]) {
      assert a[..|a| - 1][..n] == t[..n];
    }
  }

  /** Where the text stops depends on the text alone, not on how it is cut into tokens. */
  lemma FirstStopUnique(stops: seq<string>, t: string, a: string, b: string)
    requires a <= t && b <= t && FirstStop(stops, a) && FirstStop(stops, b)
    ensures a == b
  {
    FirstStopShortest(stops, t, a, b);
    FirstStopShortest(stops, t, b, a);
    assert a == t[..|a|] && b == t[..|b|];
  }

  /** The start of the earliest stop string among those that end t. */
  ghost predicate EarliestStart(stops: seq<string>, t: string, pos: int) {
    && (exists i :: 0 <= i < |stops| && EndsWith(t, stops[i], |stops[i]|) && pos == |t| - |stops[i]|)
    && (forall i :: 0 <= i < |stops| && EndsWith(t, stops[i], |stops[i]|) ==> pos <= |t| - |stops[i]|)
  }

  /** Every stop string may have begun at `pos` or later, and one has begun there. */
  ghost predicate LiveStart(stops: seq<string>, t: string, pos: int) {
    && (exists i, k :: 0 <= i < |stops| && Longest(t, stops[i], k) && pos == |t| - k)
    && (forall i, k :: 0 <= i < |stops| && Longest(t, stops[i], k) ==> pos <= |t| - k)
  }

  /** The released tokens are as many as fit before `pos`. */
  ghost predicate ReleasedUpTo(table: seq<string>, released: seq<Token>, pending: seq<Token>, pos: int) {
    && |Text(table, released)| <= pos
    && (pending != [] ==> |Text(table, released + [pending[0]])| > pos)
  }

  datatype Bound = Unset | At(pos: int)

  function Tighten(b: Bound, x: int): Bound {
    if b.Unset? || x < b.pos then At(x) else b
  }

  /**
   What the loop over the stop strings has found after the first i of them: `start` is the least
   start of a complete match (stop string `first`), `cut` and `most` describe the longest
   incomplete match (stop string `widest`). Positions count from the start of `len` characters.
   */
  ghost predicate Scanned(stops: seq<string>, m: seq<int>, i: nat, len: int,
                          start: Bound, first: nat, cut: Bound, most: int, widest: nat) {
    && i <= |stops| == |m|
    && (start.At? ==> first < i && m[first] == |stops[first]| && start.pos == len - |stops[first]|)
    && (forall j :: 0 <= j < i && m[j] == |stops[j]| ==> start.At? && |stops[j]| <= |stops[first]|)
    && (cut.Unset? ==> most == 0)
    && (cut.At? ==> widest < i && m[widest] == most != |stops[widest]| && cut.pos == len - most)
    && (forall j :: 0 <= j < i && m[j] != |stops[j]| ==> cut.At? && m[j] <= most)
  }

  lemma ScanStep(stops: seq<string>, m: seq<int>, i: nat, len: int, start: Bound, first: nat, cut: Bound, most: int,
                 widest: nat, k: int)
    requires Scanned(stops, m, i, len, start, first, cut, most, widest) && i < |stops| && 0 <= k
    ensures k == |stops[i]| ==>
              Scanned(stops, m[i := k], i + 1, len, Tighten(start, len - |stops[i]|),
                      if start.Unset? || |stops[i]| > |stops[first]| then i else first, cut, most, widest)
    ensures k != |stops[i]| ==>
              Scanned(stops, m[i := k], i + 1, len, start, first, Tighten(cut, len - k),
                      if k > most then k else most, if cut.Unset? || k > most then i else widest)
  {
  }

  /** Runs one step for every stop string. */
  method Scan(stops: seq<string>, tables: seq<seq<int>>, cur: seq<int>, ch: char, len: int, ghost t: string)
    returns (m: seq<int>, start: Bound, cut: Bound, most: int, ghost first: nat, ghost widest: nat)
    requires |tables| == |stops| == |cur|
    requires forall i :: 0 <= i < |stops| ==> TableOk(stops[i], tables[i]) && |tables[i]| == |stops[i]|
    requires forall i :: 0 <= i < |stops| ==> Longest(t, stops[i], cur[i]) && cur[i] < |stops[i]| && cur[i] < len
    ensures Scanned(stops, m, |stops|, len, start, first, cut, most, widest)
    ensures forall i :: 0 <= i < |stops| ==> Longest(t + [ch], stops[i], m[i]) && m[i] <= len
  {
    m, start, cut, most, first, widest := cur, Unset, Unset, 0, 0, 0;
    for i := 0 to |stops|
      invariant Scanned(stops, m, i, len, start, first, cut, most, widest)
      invariant forall j :: i <= j < |stops| ==> m[j] == cur[j]
      invariant forall j :: 0 <= j < i ==> Longest(t + [ch], stops[j], m[j]) && m[j] <= len
    {
      var k := Advance(stops[i], tables[i], m[i], ch, t);
      ScanStep(stops, m, i, len, start, first, cut, most, widest, k);
      m := m[i := k];
      if k == |stops[i]| {
        first := if start.Unset? || |stops[i]| > |stops[first]| then i else first;
        start := Tighten(start, len - |stops[i]|);
      } else {
        widest := if cut.Unset? || k > most then i else widest;
        cut := Tighten(cut, len - k);
        most := if k > most then k else most;
      }
    }
  }

  /** A completed scan of the longest matches shows whether and where the text stops. */
  lemma ScanDone(stops: seq<string>, m: seq<int>, t: string, base: int, len: int, start: Bound, first: nat,
                 cut: Bound, most: int, widest: nat)
    requires Scanned(stops, m, |stops|, len, start, first, cut, most, widest) && |t| == base + len && stops != []
    requires forall i :: 0 <= i < |stops| ==> Longest(t, stops[i], m[i])
    ensures start.At? <==> Stops(stops, t)
    ensures start.At? ==> EarliestStart(stops, t, start.pos + base)
    ensures start.Unset? ==> cut.At? && LiveStart(stops, t, cut.pos + base)
  {
    forall i | 0 <= i < |stops| ensures EndsWith(t, stops[i], |stops[i]|) <==> m[i] == |stops[i]| {
      assert Longest(t, stops[i], m[i]);
    }
    if start.At? {
      assert EndsWith(t, stops[first], |stops[first]|);
    } else {
      assert m[0] != |stops[0]|;
      assert Longest(t, stops[widest], most);
      forall i, k | 0 <= i < |stops| && Longest(t, stops[i], k) ensures k <= most {
        assert Longest(t, stops[i], m[i]);
      }
    }
  }

  // ---------------------------------------------------------------- the handler

  class StopStrHandler {
    const stops: seq<string>
    const tables: seq<seq<int>>
    const tokenTable: seq<string>
    var pendingStringLen: int
    var pendingIds: seq<Token>
    var pendingLengths: seq<nat>
    var stopTriggered: bool
    var curMatch: seq<int>

    /** The tokens put in, the tokens given back, and the characters looked at. */
    ghost var given: seq<Token>
    ghost var released: seq<Token>
    ghost var seen: string

    ghost predicate Tables() {
      && |tables| == |stops|
      && forall i :: 0 <= i < |stops| ==> TableOk(stops[i], tables[i]) && |tables[i]| == |stops[i]|
    }

    /** Each current match is the longest one, is not complete, and lies in the pending text. */
    ghost predicate Matches()
      reads this
    {
      && |curMatch| == |stops|
      && forall i :: 0 <= i < |stops| ==>
           && Longest(seen, stops[i], curMatch[i])
           && curMatch[i] < |stops[i]| && curMatch[i] <= pendingStringLen
    }

    ghost predicate Queue()
      reads this
    {
      && given == released + pendingIds
      && |pendingLengths| == |pendingIds|
      && (forall i :: 0 <= i < |pendingIds| ==>
            pendingIds[i] < |tokenTable| && pendingLengths[i] == |tokenTable[pendingIds[i]]|)
    }

    /** Between two characters, while no stop string has appeared. */
    ghost predicate Running()
      reads this
    {
      && Tables() && Matches() && Queue() && !stopTriggered
      && StopsNowhere(stops, seen)
      && pendingStringLen == |seen| - |Text(tokenTable, released)|
    }

    /** As many tokens are released as end before the earliest stop string still possible. */
    ghost predicate Maximal()
      reads this
    {
      exists pos :: LiveStart(stops, seen, pos) && ReleasedUpTo(tokenTable, released, pendingIds, pos)
    }

    /** After a stop string has appeared. */
    ghost predicate Stopped()
      reads this
    {
      && Queue() && stopTriggered
      && seen <= Text(tokenTable, given) && FirstStop(stops, seen)
      && exists pos :: EarliestStart(stops, seen, pos) && ReleasedUpTo(tokenTable, released, pendingIds, pos)
    }

    ghost predicate Valid()
      reads this
    {
      if stops == [] then given == released && pendingIds == []
      else if stopTriggered then Stopped()
      else Running() && seen == Text(tokenTable, given)
    }

    constructor (stops: seq<string>, tokenTable: seq<string>)
      requires forall i :: 0 <= i < |stops| ==> stops[i] != ""
      ensures this.stops == stops && this.tokenTable == tokenTable
      ensures Valid() && !stopTriggered && given == []
    {
      var made: seq<seq<int>> := [];
      for i := 0 to |stops|
        invariant |made| == i
        invariant forall j :: 0 <= j < i ==> TableOk(stops[j], made[j]) && |made[j]| == |stops[j]|
      {
        var table := CreatePartialMatchTable(stops[i]);
        made := made + [table];
      }
      this.stops, this.tables, this.tokenTable := stops, made, tokenTable;
      pendingStringLen, pendingIds, pendingLengths := 0, [], [];
      stopTriggered := false;
      curMatch := seq(|stops|, _ => 0);
      given, released, seen := [], [], "";
    }

    /** One character, against every stop string. */
    method ReadChar(ch: char) returns (stopStart: Bound, cutoff: Bound, maxMatch: int)
      requires Tables() && Matches() && stops != [] && !stopTriggered
      requires pendingStringLen == |seen| - |Text(tokenTable, released)|
      modifies this`curMatch, this`stopTriggered, this`seen
      ensures seen == old(seen) + [ch] && |curMatch| == |stops|
      ensures forall i :: 0 <= i < |stops| ==>
                Longest(seen, stops[i], curMatch[i]) && curMatch[i] <= pendingStringLen + 1
      ensures stopTriggered <==> Stops(stops, seen)
      ensures stopTriggered ==>
                stopStart.At? && EarliestStart(stops, seen, stopStart.pos + |Text(tokenTable, released)|)
      ensures !stopTriggered ==> cutoff.At? && cutoff.pos == pendingStringLen + 1 - maxMatch
      ensures !stopTriggered ==> LiveStart(stops, seen, cutoff.pos + |Text(tokenTable, released)|)
      ensures !stopTriggered ==> forall i :: 0 <= i < |stops| ==> curMatch[i] <= maxMatch && curMatch[i] < |stops[i]|
    {
      ghost var first, widest;
      curMatch, stopStart, cutoff, maxMatch, first, widest :=
        Scan(stops, tables, curMatch, ch, pendingStringLen + 1, seen);
      seen := seen + [ch];
      stopTriggered := stopStart.At?;
      ScanDone(stops, curMatch, seen, |Text(tokenTable, released)|, pendingStringLen + 1, stopStart, first,
               cutoff, maxMatch, widest);
    }

    /** Gives back the pending tokens that end within the first `cutoff` pending characters. */
    method Release(cutoff: int) returns (out: seq<Token>, cum: nat)
      requires Queue() && 0 <= cutoff
      modifies this`pendingIds, this`pendingLengths, this`released
      ensures Queue() && released == old(released) + out
      ensures cum == |Text(tokenTable, released)| - |old(Text(tokenTable, released))| <= cutoff
      ensures ReleasedUpTo(tokenTable, released, pendingIds, cutoff + |old(Text(tokenTable, released))|)
    {
      out, cum := [], 0;
      ghost var base := |Text(tokenTable, released)|;
      while pendingIds != [] && cum + pendingLengths[0] <= cutoff
        invariant Queue() && released == old(released) + out
        invariant cum == |Text(tokenTable, released)| - base <= cutoff
        decreases |pendingIds|
      {
        TextConcat(tokenTable, released, [pendingIds[0]]);
        cum := cum + pendingLengths[0];
        out := out + [pendingIds[0]];
        released := released + [pendingIds[0]];
        pendingIds := pendingIds[1..];
        pendingLengths := pendingLengths[1..];
      }
      if pendingIds != [] {
        TextConcat(tokenTable, released, [pendingIds[0]]);
      }
    }

    /** Takes one token in and returns the tokens that are safe to show now. */
    method Put(tokenId: Token) returns (out: seq<Token>)
      requires Valid() && tokenId < |tokenTable|
      requires stops != [] ==> !stopTriggered
      modifies this
      ensures Valid() && given == old(given) + [tokenId] && released == old(released) + out
      ensures stops == [] ==> out == [tokenId] && stopTriggered == old(stopTriggered)
      ensures stops != [] && !stopTriggered && tokenTable[tokenId] != "" ==> Maximal()
      ensures stops != [] && stopTriggered ==> |seen| > |old(Text(tokenTable, given))|
    {
      if stops == [] {
        given := given + [tokenId];
        released := released + [tokenId];
        return [tokenId];
      }
      PushToken(tokenId);
      out := PutChars(tokenTable[tokenId]);
    }

    method PutChars(token: string) returns (out: seq<Token>)
      requires Running() && stops != [] && seen + token == Text(tokenTable, given)
      modifies this
      ensures given == old(given) && released == old(released) + out
      ensures if stopTriggered then Stopped() else Running() && seen == Text(tokenTable, given)
      ensures !stopTriggered && token != "" ==> Maximal()
      ensures stopTriggered ==> |seen| > |old(seen)|
    {
      out := [];
      assert token[0..] == token;
      for n := 0 to |token|
        invariant Running() && given == old(given) && released == old(released) + out
        invariant seen + token[n..] == Text(tokenTable, given) && |seen| >= |old(seen)|
        invariant n > 0 ==> Maximal()
      {
        DropNext(token, n);
        ConcatAssoc(seen, [token[n]], token[n + 1..]);
        var more := PutChar(token[n]);
        ConcatAssoc(old(released), out, more);
        out := out + more;
        if stopTriggered {
          return;
        }
      }
    }

    method PushToken(tokenId: Token)
      requires Running() && tokenId < |tokenTable|
      modifies this`given, this`pendingIds, this`pendingLengths
      ensures Running() && given == old(given) + [tokenId]
      ensures Text(tokenTable, given) == old(Text(tokenTable, given)) + tokenTable[tokenId]
    {
      TextConcat(tokenTable, given, [tokenId]);
      given := given + [tokenId];
      pendingIds := pendingIds + [tokenId];
      pendingLengths := pendingLengths + [|tokenTable[tokenId]|];
    }

    /** One round of the loop over the characters of a token. */
    method PutChar(ch: char) returns (out: seq<Token>)
      requires Running() && stops != [] && seen + [ch] <= Text(tokenTable, given)
      modifies this
      ensures seen == old(seen) + [ch] && given == old(given) && released == old(released) + out
      ensures if stopTriggered then Stopped() else Running()
      ensures stopTriggered <==> Stops(stops, seen)
      ensures !stopTriggered ==> Maximal()
    {
      var stopStart, cutoff, maxMatch := ReadChar(ch);
      assert seen[..|seen| - 1] == old(seen);
      var limit := if stopTriggered then stopStart.pos else cutoff.pos;
      ghost var base := |Text(tokenTable, released)|;
      var cum;
      out, cum := Release(limit);
      assert ReleasedUpTo(tokenTable, released, pendingIds, limit + base);
      if !stopTriggered {
        pendingStringLen := (limit - cum) + maxMatch;
        forall n | 0 <= n <= |seen| ensures !Stops(stops, seen[..n]) {
          assert seen[..n] == if n == |seen| then seen else old(seen)[..n];
        }
      }
    }

    /** Generation ends: the tokens still held back are given out as well. */
    method Finish() returns (out: seq<Token>)
      requires Valid()
      ensures released + out == given
    {
      out := pendingIds;
    }
  }

  /**
   Of the first `used` tokens, t is the text up to the first stop, which lies in the last of them,
   and `out` are the tokens that end before the earliest stop string.
   */
  ghost predicate StoppedIn(stops: seq<string>, table: seq<string>, ids: seq<Token>, used: nat, out: seq<Token>,
                            t: string)
  {
    && 0 < used <= |ids| && |out| <= used
    && t <= Text(table, ids[..used]) && |t| > |Text(table, ids[..used - 1])| && FirstStop(stops, t)
    && exists pos :: EarliestStart(stops, t, pos) && ReleasedUpTo(table, out, ids[|out|..used], pos)
  }

  /** One more token of a run. */
  method PutNext(h: StopStrHandler, ids: seq<Token>, used: nat, out: seq<Token>) returns (out': seq<Token>)
    requires h.Valid() && used < |ids| && ids[used] < |h.tokenTable| && (h.stops == [] || !h.stopTriggered)
    requires h.given == ids[..used] && h.released == out
    modifies h
    ensures h.Valid() && h.given == ids[..used + 1] && h.released == out' <= ids[..used + 1]
    ensures h.stops != [] && h.stopTriggered ==> StoppedIn(h.stops, h.tokenTable, ids, used + 1, out', h.seen)
  {
    var more := h.Put(ids[used]);
    TakeNext(ids, used);
    out' := out + more;
    if h.stops != [] && h.stopTriggered {
      assert ids[|out'|..used + 1] == ids[..used + 1][|out'|..] == h.pendingIds;
    }
  }

  /** Any token run up to its first stop: what comes back, and when it ends. */
  method PutAll(stops: seq<string>, tokenTable: seq<string>, ids: seq<Token>)
    returns (out: seq<Token>, used: nat, stopped: bool)
    requires forall i :: 0 <= i < |stops| ==> stops[i] != ""
    requires forall i :: 0 <= i < |ids| ==> ids[i] < |tokenTable|
    ensures used <= |ids| && out <= ids[..used]
    ensures !stopped ==> used == |ids| && (stops != [] ==> StopsNowhere(stops, Text(tokenTable, ids)))
    ensures stopped ==> exists t :: StoppedIn(stops, tokenTable, ids, used, out, t)
  {
    var h := new StopStrHandler(stops, tokenTable);
    out, used, stopped := [], 0, false;
    while used < |ids| && !stopped
      invariant fresh(h) && h.Valid() && h.stops == stops && h.tokenTable == tokenTable
      invariant used <= |ids| && h.given == ids[..used] && h.released == out <= ids[..used]
      invariant stopped <==> stops != [] && h.stopTriggered
      invariant stopped ==> StoppedIn(stops, tokenTable, ids, used, out, h.seen)
    {
      out := PutNext(h, ids, used, out);
      used := used + 1;
      stopped := stops != [] && h.stopTriggered;
    }
    TakeAll(ids);
  }
}
