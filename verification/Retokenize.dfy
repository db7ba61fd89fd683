/**
 Jump-forward decoding and retokenization: committed tokens may be replaced after their text was
 already streamed. The client's text, the KV cache and the token counts stay consistent.
 */
module Retokenize {
  import opened Lists
  import opened Tokens
  import opened PromptData
  import opened RequestState
  import Stop = StopStrings

  const MAX_ROLLBACK_TOKENS: nat := 10

  datatype Tokenizer = Tokenizer(table: seq<string>, encode: string -> seq<Token>, isPrefix: Token -> bool)
  {
    /** The texts of the tokens of an encoded string make up the string. */
    ghost predicate Faithful() {
      forall s :: Text(encode(s)) == s
    }

    ghost function Text(toks: seq<Token>): string {
      Stop.Text(table, toks)
    }

    function TokenText(t: Token): string {
      if t < |table| then table[t] else ""
    }

    lemma TextConcat(a: seq<Token>, b: seq<Token>)
      ensures Text(a + b) == Text(a) + Text(b)
    {
      Stop.TextConcat(table, a, b);
    }

    lemma TextSnoc(a: seq<Token>, t: Token)
      ensures Text(a + [t]) == Text(a) + TokenText(t)
    {
      Stop.TextConcat(table, a, [t]);
      assert [t][1..] == [];
    }

    lemma TextEmpty(toks: seq<Token>)
      ensures Text(toks) != "" ==> toks != []
    {
    }
  }

  // ---------------------------------------------------------------- replacing a tail

  /** How many tokens at the end may be replaced. */
  function Window(c: seq<Token>): nat {
    if |c| >= MAX_ROLLBACK_TOKENS then MAX_ROLLBACK_TOKENS else |c|
  }

  function Past(c: seq<Token>): seq<Token> {
    c[|c| - Window(c)..]
  }

  /** The committed tokens with the window replaced. */
  function Replaced(c: seq<Token>, toks: seq<Token>): seq<Token> {
    c[..|c| - Window(c)] + toks
  }

  /** The last tokens and a new string, tokenized together. */
  ghost function Refit(tk: Tokenizer, c: seq<Token>, newString: string): seq<Token> {
    tk.encode(tk.Text(Past(c)) + newString)
  }

  /** The last token could grow into another token. */
  predicate MayGrow(tk: Tokenizer, toks: seq<Token>) {
    toks != [] && tk.isPrefix(toks[|toks| - 1])
  }

  /** How much of a forced string is committed: all, all but the last token's text, or nothing. */
  ghost function Forced(tk: Tokenizer, c: seq<Token>, newString: string): string {
    var toks := Refit(tk, c, newString);
    if !MayGrow(tk, toks) then newString
    else
      var n := |tk.TokenText(toks[|toks| - 1])|;
      if n >= |newString| then "" else newString[..|newString| - n]
  }

  /** The committed tokens after a forced string. */
  ghost function Jumped(tk: Tokenizer, c: seq<Token>, newString: string): seq<Token> {
    var toks := Refit(tk, c, newString);
    if !MayGrow(tk, toks) then Replaced(c, toks)
    else if |tk.TokenText(toks[|toks| - 1])| >= |newString| then c
    else Replaced(c, toks[..|toks| - 1])
  }

  /** Taking back only what differs and committing the rest replaces the whole window. */
  lemma ReplaceFromDifference(c: seq<Token>, toks: seq<Token>)
    ensures var d := Lcp(Past(c), toks);
            c[..|c| - (|Past(c)| - d)] + toks[d..] == Replaced(c, toks)
  {
    var d := Lcp(Past(c), toks);
    JoinAt(c, |c| - Window(c), toks, d);
  }

  /** Nothing is taken back that is committed again in the same place. */
  lemma DiffersThere(c: seq<Token>, past: seq<Token>, toks: seq<Token>, d: nat)
    requires |past| <= |c| && past == c[|c| - |past|..] && d < |past| && d < |toks| && past[d] != toks[d]
    ensures c[|c| - (|past| - d)] != toks[d..][0]
  {
  }

  lemma JoinAt(c: seq<Token>, w: nat, toks: seq<Token>, d: nat)
    requires w <= |c| && d <= |c| - w && d <= |toks| && c[w..][..d] == toks[..d]
    ensures c[..w + d] + toks[d..] == c[..w] + toks
  {
    assert c[..w + d] == c[..w] + toks[..d];
    assert toks == toks[..d] + toks[d..];
  }

  lemma ReplacedText(tk: Tokenizer, c: seq<Token>, toks: seq<Token>, delta: string)
    requires tk.Text(toks) == tk.Text(Past(c)) + delta
    ensures tk.Text(Replaced(c, toks)) == tk.Text(c) + delta
  {
    var head := c[..|c| - Window(c)];
    assert c == head + Past(c);
    tk.TextConcat(head, Past(c));
    tk.TextConcat(head, toks);
    ConcatAssoc(tk.Text(head), tk.Text(Past(c)), delta);
  }

  /** Tokenizing the last tokens together with t yields no token that is not there already. */
  ghost predicate Swallowed(tk: Tokenizer, c: seq<Token>, t: Token) {
    tk.encode(tk.Text(Past(c)) + tk.TokenText(t)) <= Past(c)
  }

  /** A token with a text is never swallowed, so the next decode has something to feed. */
  lemma TextIsNotSwallowed(tk: Tokenizer, c: seq<Token>, t: Token)
    requires tk.Faithful() && tk.TokenText(t) != ""
    ensures !Swallowed(tk, c, t)
  {
    NewTextNeedsToken(tk, c, tk.encode(tk.Text(Past(c)) + tk.TokenText(t)), tk.TokenText(t));
  }

  /** One token per character; the numbers that are no characters are tokens without text. */
  function CharTokenizer(): Tokenizer {
    Tokenizer(seq(0x110000, i requires 0 <= i < 0x110000 => if i < 0xD800 || 0xE000 <= i then [i as char] else ""),
              s => seq(|s|, i requires 0 <= i < |s| => s[i] as nat),
              t => false)
  }

  lemma {:induction false} CharTokenizerFaithful(s: string)
    ensures CharTokenizer().Text(CharTokenizer().encode(s)) == s
  {
    var tk := CharTokenizer();
    if s != "" {
      assert tk.encode(s)[1..] == tk.encode(s[1..]);
      CharTokenizerFaithful(s[1..]);
      assert tk.table[tk.encode(s)[0]] == [s[0]];
    }
  }

  lemma CharsFaithful()
    ensures CharTokenizer().Faithful()
  {
    forall s ensures CharTokenizer().Text(CharTokenizer().encode(s)) == s {
      CharTokenizerFaithful(s);
    }
  }

  /** A short list of characters with its own text is encoded as it is. */
  lemma {:induction false} CharsAgain(toks: seq<Token>)
    requires forall i :: 0 <= i < |toks| ==> toks[i] < 0xD800
    ensures CharTokenizer().encode(CharTokenizer().Text(toks)) == toks
  {
    var tk := CharTokenizer();
    if toks != [] {
      CharsAgain(toks[1..]);
      var first, rest := tk.table[toks[0]], tk.Text(toks[1..]);
      assert first == [toks[0] as char] && tk.Text(toks) == first + rest;
      assert tk.encode(first + rest) == [toks[0]] + tk.encode(rest);
    }
  }

  /** A token without text may be swallowed: then nothing is left for the next decode. */
  lemma EmptyTokenSwallowed(c: seq<Token>)
    requires forall i :: 0 <= i < |c| ==> c[i] < 0xD800
    ensures CharTokenizer().TokenText(0xD800) == "" && Swallowed(CharTokenizer(), c, 0xD800)
  {
    var tk := CharTokenizer();
    assert |tk.table| == 0x110000 && tk.table[0xD800] == "";
    CharsAgain(Past(c));
    assert tk.Text(Past(c)) + tk.TokenText(0xD800) == tk.Text(Past(c));
  }

  /** Nothing is left to commit exactly when the new tokens are a prefix of the old ones. */
  lemma NothingFresh(c: seq<Token>, toks: seq<Token>)
    ensures toks[Lcp(Past(c), toks)..] == [] <==> toks <= Past(c)
  {
    LcpAtLeast(toks, Past(c), |toks|);
    LcpSymmetric(Past(c), toks);
    assert toks[..|toks|] == toks;
  }

  lemma LcpSymmetric(a: seq<Token>, b: seq<Token>)
    ensures Lcp(a, b) == Lcp(b, a)
  {
    LcpUnique(b, a, Lcp(a, b));
  }

  /** New text needs a new token. */
  lemma NewTextNeedsToken(tk: Tokenizer, c: seq<Token>, toks: seq<Token>, delta: string)
    requires tk.Text(toks) == tk.Text(Past(c)) + delta && delta != ""
    ensures !(toks <= Past(c))
  {
    if toks <= Past(c) {
      PrefixText(tk, toks, Past(c));
    }
  }

  lemma PrefixText(tk: Tokenizer, a: seq<Token>, b: seq<Token>)
    requires a <= b
    ensures |tk.Text(a)| <= |tk.Text(b)|
  {
    assert b == a + b[|a|..];
    tk.TextConcat(a, b[|a|..]);
  }

  // ---------------------------------------------------------------- the loops of the retokenizers

  /** The last tokens and their text. */
  method PastTokens(tk: Tokenizer, c: seq<Token>) returns (past: seq<Token>, text: string)
    ensures past == Past(c) && text == tk.Text(past)
    ensures past == c[if |c| >= 10 then |c| - 10 else 0..]
  {
    past, text := [], "";
    var begin := |c| - Window(c);
    for i := begin to |c|
      invariant past == c[begin..i] && text == tk.Text(past)
    {
      tk.TextSnoc(past, c[i]);
      past := past + [c[i]];
      text := text + tk.TokenText(c[i]);
    }
  }

  method FirstDifference(past: seq<Token>, toks: seq<Token>) returns (d: nat)
    ensures d == Lcp(past, toks)
  {
    d := |past|;
    for i := 0 to |past|
      invariant i <= |toks| && past[..i] == toks[..i] && d == |past|
    {
      if i == |toks| || past[i] != toks[i] {
        LcpUnique(past, toks, i);
        return i;
      }
    }
    LcpUnique(past, toks, |past|);
  }

  /** What has to be taken back and what has to be committed for the window to become `toks`. */
  method Difference(c: seq<Token>, past: seq<Token>, toks: seq<Token>) returns (rollback: nat, news: seq<Token>)
    requires past == Past(c)
    ensures rollback <= |c| && c[..|c| - rollback] + news == Replaced(c, toks)
    ensures rollback > 0 && news != [] ==> c[|c| - rollback] != news[0]
    ensures news == [] <==> toks <= Past(c)
  {
    var d := FirstDifference(past, toks);
    ReplaceFromDifference(c, toks);
    NothingFresh(c, toks);
    if d < |past| && d < |toks| {
      DiffersThere(c, past, toks, d);
    }
    return |past| - d, toks[d..];
  }

  /** The two functions, told from the last token of the encoding. */
  lemma JumpedIs(tk: Tokenizer, c: seq<Token>, newString: string)
    requires tk.Faithful() && newString != ""
    ensures var w := if |c| >= 10 then 10 else |c|;
            var head, toks := c[..|c| - w], tk.encode(tk.Text(c[|c| - w..]) + newString);
            && toks != [] && var last := toks[|toks| - 1]; var length := |tk.TokenText(last)|;
            && (!tk.isPrefix(last) ==> Forced(tk, c, newString) == newString && Jumped(tk, c, newString) == head + toks)
            && (tk.isPrefix(last) && length < |newString| ==>
                  && |Forced(tk, c, newString)| == |newString| - length
                  && Jumped(tk, c, newString) == head + toks[..|toks| - 1])
            && (tk.isPrefix(last) && length >= |newString| ==> Forced(tk, c, newString) == "")
  {
    tk.TextEmpty(Refit(tk, c, newString));
  }

  /**
   Tokenizes the last tokens together with a new string. The last new token is left out when it
   could grow into another token.
   */
  method RetokenizeWithNewString(tk: Tokenizer, c: seq<Token>, newString: string)
    returns (rollback: nat, news: seq<Token>, delta: string)
    requires tk.Faithful() && newString != ""
    ensures rollback <= |c| && delta == Forced(tk, c, newString) <= newString
    ensures c[..|c| - rollback] + news == Jumped(tk, c, newString)
    ensures var w := if |c| >= 10 then 10 else |c|;
            var head, toks := c[..|c| - w], tk.encode(tk.Text(c[|c| - w..]) + newString);
            && toks != [] && var last := toks[|toks| - 1]; var length := |tk.TokenText(last)|;
            && (!tk.isPrefix(last) ==> delta == newString && c[..|c| - rollback] + news == head + toks)
            && (tk.isPrefix(last) && length < |newString| ==>
                  |delta| == |newString| - length && c[..|c| - rollback] + news == head + toks[..|toks| - 1])
            && (tk.isPrefix(last) && length >= |newString| ==> delta == "" && rollback == 0 && news == [])
    ensures rollback > 0 && news != [] ==> c[|c| - rollback] != news[0]
    ensures tk.Text(c[..|c| - rollback] + news) == tk.Text(c) + delta
    ensures delta == "" ==> rollback == 0 && news == []
    ensures delta != "" ==> news != []
  {
    JumpedIs(tk, c, newString);
    rollback, news, delta := EncodeWithNewString(tk, c, newString);
  }

  method EncodeWithNewString(tk: Tokenizer, c: seq<Token>, newString: string)
    returns (rollback: nat, news: seq<Token>, delta: string)
    requires tk.Faithful() && newString != ""
    ensures rollback <= |c| && delta == Forced(tk, c, newString) <= newString
    ensures c[..|c| - rollback] + news == Jumped(tk, c, newString)
    ensures rollback > 0 && news != [] ==> c[|c| - rollback] != news[0]
    ensures tk.Text(c[..|c| - rollback] + news) == tk.Text(c) + delta
    ensures delta == "" ==> rollback == 0 && news == []
    ensures delta != "" ==> news != []
  {
    var past, text := PastTokens(tk, c);
    var toks := tk.encode(text + newString);
    tk.TextEmpty(toks);
    delta := newString;
    var last := toks[|toks| - 1];
    if tk.isPrefix(last) {
      if |tk.TokenText(last)| >= |newString| {
        assert c[..|c| - 0] + [] == c;
        return 0, [], "";
      }
      delta := newString[..|newString| - |tk.TokenText(last)|];
      tk.TextSnoc(toks[..|toks| - 1], last);
      assert toks == toks[..|toks| - 1] + [last];
      CutSuffix(tk.Text(toks[..|toks| - 1]), tk.TokenText(last), text, newString);
      toks := toks[..|toks| - 1];
    }
    ReplacedText(tk, c, toks, delta);
    NewTextNeedsToken(tk, c, toks, delta);
    rollback, news := Difference(c, past, toks);
  }

  lemma CutSuffix(a: string, last: string, text: string, s: string)
    requires a + last == text + s && |last| <= |s|
    ensures a == text + s[..|s| - |last|]
  {
    assert a == (a + last)[..|a|];
    assert (text + s)[..|a|] == text + s[..|s| - |last|];
  }

  /** Tokenizes the last tokens together with a new token. */
  method RetokenizeWithNewToken(tk: Tokenizer, c: seq<Token>, t: Token) returns (rollback: nat, news: seq<Token>)
    requires tk.Faithful()
    ensures rollback <= |c| && c[..|c| - rollback] + news == Replaced(c, Refit(tk, c, tk.TokenText(t)))
    ensures var w := if |c| >= 10 then 10 else |c|;
            c[..|c| - rollback] + news == c[..|c| - w] + tk.encode(tk.Text(c[|c| - w..]) + tk.TokenText(t))
    ensures rollback > 0 && news != [] ==> c[|c| - rollback] != news[0]
    ensures tk.Text(c[..|c| - rollback] + news) == tk.Text(c) + tk.TokenText(t)
    ensures news == [] <==> Swallowed(tk, c, t)
    ensures tk.TokenText(t) != "" ==> news != []
  {
    var past, text := PastTokens(tk, c);
    var toks := tk.encode(text + tk.TokenText(t));
    ReplacedText(tk, c, toks, tk.TokenText(t));
    if tk.TokenText(t) != "" {
      TextIsNotSwallowed(tk, c, t);
    }
    rollback, news := Difference(c, past, toks);
  }

  // ---------------------------------------------------------------- one request

  /** With the last tokens replaced, the text grows by delta. */
  ghost predicate GrowsBy(tk: Tokenizer, c: seq<Token>, rollback: nat, news: seq<Token>, delta: string) {
    rollback <= |c| && tk.Text(c[..|c| - rollback] + news) == tk.Text(c) + delta
  }

  /** The text sent, followed by the texts of the tokens from `next` on, is the text of all tokens. */
  ghost predicate Streams(tk: Tokenizer, c: seq<Token>, next: nat, sent: string) {
    next <= |c| && sent + tk.Text(c[next..]) == tk.Text(c)
  }

  method AppendTexts(tk: Tokenizer, start: string, toks: seq<Token>) returns (r: string)
    ensures r == start + tk.Text(toks)
  {
    r := start;
    for i := 0 to |toks|
      invariant r == start + tk.Text(toks[..i])
    {
      tk.TextSnoc(toks[..i], toks[i]);
      assert toks[..i + 1] == toks[..i] + [toks[i]];
      ConcatAssoc(start, tk.Text(toks[..i]), tk.TokenText(toks[i]));
      r := r + tk.TokenText(toks[i]);
    }
    assert toks[..|toks|] == toks;
  }

  class Generation {
    const tk: Tokenizer
    const prompt: seq<Token>
    const m: RequestModelState
    var kv: seq<Token>
    /** The first committed token that the client has not been sent, and text to send before it. */
    var nextCallback: nat
    var extraPrefix: string
    /** All text sent to the client so far. */
    ghost var streamed: string

    /** The KV cache holds the prompt and all committed tokens but the last numNext. */
    ghost predicate KvOk()
      reads this, m
    {
      0 <= m.numNext <= |m.committed| && kv == prompt + m.committed[..|m.committed| - m.numNext]
    }

    /** What was sent, what is to be sent first, and the tokens still to be sent make up the text. */
    ghost predicate StreamOk()
      reads this, m
    {
      Streams(tk, m.committed, nextCallback, streamed + extraPrefix)
    }

    ghost predicate Valid()
      reads this, m
    {
      tk.Faithful() && m.Valid() && KvOk() && StreamOk()
    }

    /** After the prefill: the prompt is in the KV cache, and one token has been sampled. */
    constructor (tk: Tokenizer, prompt: seq<Token>, first: Token)
      requires tk.Faithful()
      ensures Valid() && this.tk == tk && this.prompt == prompt && m.committed == [first] && m.numNext == 1
      ensures streamed == "" && fresh(m)
    {
      this.tk, this.prompt := tk, prompt;
      kv, nextCallback, extraPrefix, streamed := prompt, 0, "", "";
      m := new RequestModelState(0, []);
      new;
      m.CommitToken(first);
      AtStart(tk, prompt, first);
    }

    /** The text of tokens that are about to be replaced goes out as text instead. */
    method TakeBackStream(rollback: nat, news: seq<Token>, delta: string)
      requires rollback <= |m.committed| && StreamOk()
      requires tk.Text(m.committed[..|m.committed| - rollback] + news) == tk.Text(m.committed) + delta
      modifies this`extraPrefix, this`nextCallback
      ensures Streams(tk, m.committed[..|m.committed| - rollback] + news, nextCallback, streamed + extraPrefix)
    {
      StreamAfter(tk, m.committed, rollback, news, delta, nextCallback, streamed, extraPrefix);
      if rollback > |m.committed| - nextCallback {
        var text := AppendTexts(tk, extraPrefix, m.committed[nextCallback..]);
        extraPrefix := text + delta;
        nextCallback := |m.committed| - rollback + |news|;
      }
    }

    /** Takes the last tokens out of the model state and, as far as they are there, out of the KV cache. */
    method TakeBackModel(rollback: nat)
      requires rollback <= |m.committed| && m.Valid() && KvOk()
      modifies this`kv, m`committed, m`appeared, m`numNext
      ensures m.Valid() && KvOk() && m.committed == old(m.committed)[..|old(m.committed)| - rollback]
      ensures m.numNext == if rollback > old(m.numNext) then 0 else old(m.numNext) - rollback
    {
      m.RollbackTokens(rollback);
      if rollback > m.numNext {
        kv := kv[..|kv| - (rollback - m.numNext)];
        m.numNext := 0;
      } else {
        m.numNext := m.numNext - rollback;
      }
    }

    method CommitAll(news: seq<Token>)
      requires tk.Faithful() && m.Valid() && KvOk()
      requires Streams(tk, m.committed + news, nextCallback, streamed + extraPrefix)
      modifies m`committed, m`appeared, m`numNext
      ensures Valid() && m.committed == old(m.committed) + news && m.numNext == old(m.numNext) + |news|
    {
      for i := 0 to |news|
        invariant m.Valid() && KvOk()
        invariant m.committed == old(m.committed) + news[..i] && m.numNext == old(m.numNext) + i
      {
        m.CommitToken(news[i]);
        TakeNext(news, i);
        ConcatAssoc(old(m.committed), news[..i], [news[i]]);
      }
      assert news[..|news|] == news;
    }

    /** Replaces the last tokens: stream bookkeeping, model state, KV cache, then the new tokens. */
    method Replace(rollback: nat, news: seq<Token>, delta: string)
      requires Valid() && GrowsBy(tk, m.committed, rollback, news, delta)
      modifies this`kv, this`extraPrefix, this`nextCallback, m`committed, m`appeared, m`numNext
      ensures Valid() && m.committed == old(m.committed[..|m.committed| - rollback]) + news
      ensures m.numNext == (if rollback > old(m.numNext) then 0 else old(m.numNext) - rollback) + |news|
    {
      TakeBackStream(rollback, news, delta);
      TakeBackModel(rollback);
      CommitAll(news);
    }

    method SetRetokenize(on: bool)
      requires Valid()
      modifies m`retokenize
      ensures Valid() && m.retokenize == on
    {
      m.retokenize := on;
    }

    method Force(jump: string) returns (delta: string)
      requires Valid() && jump != ""
      modifies this`kv, this`extraPrefix, this`nextCallback, m`committed, m`appeared, m`numNext
      ensures Valid() && delta == old(Forced(tk, m.committed, jump)) <= jump
      ensures m.committed == old(Jumped(tk, m.committed, jump))
      ensures tk.Text(m.committed) == old(tk.Text(m.committed)) + delta
      ensures old(m.numNext) > 0 ==> m.numNext > 0
    {
      var rollback, news;
      rollback, news, delta := EncodeWithNewString(tk, m.committed, jump);
      Replace(rollback, news, delta);
    }

    /** The grammar forces a string: tokenizes it together with the last tokens. */
    method JumpForward(jump: string) returns (delta: string)
      requires Valid()
      modifies this`kv, this`extraPrefix, this`nextCallback, m
      ensures Valid() && delta <= jump && tk.Text(m.committed) == old(tk.Text(m.committed)) + delta
      ensures if jump == "" then m.committed == old(m.committed)
              else delta == old(Forced(tk, m.committed, jump)) && m.committed == old(Jumped(tk, m.committed, jump))
      ensures old(m.numNext) > 0 ==> m.numNext > 0
      ensures m.retokenize == (jump != "" || old(m.retokenize))
    {
      delta := "";
      if jump != "" {
        delta := Force(jump);
        SetRetokenize(true);
      }
    }

    /** Feeds the committed tokens that are not in the KV cache yet. */
    method Feed()
      requires Valid()
      modifies this`kv, m`numNext
      ensures Valid() && m.numNext == 0
    {
      kv := kv + m.committed[|m.committed| - m.numNext..];
      m.numNext := 0;
      assert kv == prompt + m.committed[..|m.committed| - m.numNext];
    }

    method CommitTokenMayRetokenize(t: Token, stopIds: set<Token>)
      requires Valid() && m.numNext == 0
      modifies this`kv, this`extraPrefix, this`nextCallback, m`committed, m`appeared, m`numNext
      ensures Valid() && tk.Text(m.committed) == old(tk.Text(m.committed)) + tk.TokenText(t)
      ensures t in stopIds ==> m.committed == old(m.committed) + [t] && m.numNext > 0
      ensures t !in stopIds ==> (m.numNext > 0 <==> !old(Swallowed(tk, m.committed, t)))
      ensures t !in stopIds ==> m.committed == old(Replaced(m.committed, Refit(tk, m.committed, tk.TokenText(t))))
      ensures tk.TokenText(t) != "" ==> m.numNext > 0
    {
      if t in stopIds {
        CommitOne(t);
      } else {
        var rollback, news := RetokenizeWithNewToken(tk, m.committed, t);
        Replace(rollback, news, tk.TokenText(t));
      }
    }

    method CommitOne(t: Token)
      requires Valid()
      modifies m`committed, m`appeared, m`numNext
      ensures Valid() && m.committed == old(m.committed) + [t] && m.numNext == old(m.numNext) + 1
      ensures tk.Text(m.committed) == old(tk.Text(m.committed)) + tk.TokenText(t)
    {
      AppendOne(tk, m.committed, t, nextCallback, streamed + extraPrefix);
      tk.TextSnoc(m.committed, t);
      CommitAll([t]);
    }

    method CommitSampled(t: Token, stopIds: set<Token>)
      requires Valid() && m.numNext == 0
      modifies this`kv, this`extraPrefix, this`nextCallback, m`committed, m`appeared, m`numNext
      ensures Valid() && tk.Text(m.committed) == old(tk.Text(m.committed)) + tk.TokenText(t)
      ensures m.retokenize && t !in stopIds ==> (m.numNext > 0 <==> !old(Swallowed(tk, m.committed, t)))
      ensures tk.TokenText(t) != "" || t in stopIds || !m.retokenize ==> m.numNext > 0
      ensures m.committed == if !m.retokenize || t in stopIds then old(m.committed) + [t]
                             else old(Replaced(m.committed, Refit(tk, m.committed, tk.TokenText(t))))
    {
      if !m.retokenize {
        CommitOne(t);
      } else {
        CommitTokenMayRetokenize(t, stopIds);
      }
    }

    /** Feeds what is missing in the KV cache, then commits the sampled token. */
    method Decode(t: Token, stopIds: set<Token>)
      requires Valid() && m.numNext > 0
      modifies this`kv, this`extraPrefix, this`nextCallback, m
      ensures Valid() && !m.retokenize
      ensures tk.Text(m.committed) == old(tk.Text(m.committed)) + tk.TokenText(t)
      ensures old(m.retokenize) && t !in stopIds ==> (m.numNext > 0 <==> !old(Swallowed(tk, m.committed, t)))
      ensures tk.TokenText(t) != "" || t in stopIds || !old(m.retokenize) ==> m.numNext > 0
      ensures m.committed == if !old(m.retokenize) || t in stopIds then old(m.committed) + [t]
                             else old(Replaced(m.committed, Refit(tk, m.committed, tk.TokenText(t))))
    {
      Feed();
      CommitSampled(t, stopIds);
      SetRetokenize(false);
    }

    /** Sends everything that has not been sent (no stop string, no stop token). */
    method Callback() returns (prefix: string, delta: seq<Token>)
      requires Valid()
      modifies this`extraPrefix, this`nextCallback, this`streamed
      ensures Valid() && streamed == old(streamed) + (prefix + tk.Text(delta))
      ensures streamed == tk.Text(m.committed) && nextCallback == |m.committed| && extraPrefix == ""
    {
      prefix, extraPrefix, delta := extraPrefix, "", [];
      while nextCallback < |m.committed|
        invariant extraPrefix == "" && streamed == old(streamed)
        invariant old(nextCallback) <= nextCallback <= |m.committed|
        invariant delta == m.committed[old(nextCallback)..nextCallback]
      {
        delta := delta + [m.committed[nextCallback]];
        nextCallback := nextCallback + 1;
      }
      streamed := streamed + (prefix + tk.Text(delta));
      assert delta == m.committed[old(nextCallback)..];
      ConcatAssoc(old(streamed), prefix, tk.Text(delta));
      assert m.committed[nextCallback..] == [];
      assert streamed == tk.Text(m.committed);
      assert streamed + "" + "" == streamed;
    }
  }

  // ---------------------------------------------------------------- whole runs

  datatype Event = Jumps(text: string) | Decodes(t: Token) | CallsBack

  method Handle(g: Generation, event: Event, stopIds: set<Token>)
    requires g.Valid()
    modifies g, g.m
    ensures g.Valid()
  {
    match event
    case Jumps(text) =>
      var delta := g.JumpForward(text);
    case Decodes(t) =>
      if g.m.numNext > 0 {
        g.Decode(t, stopIds);
      }
    case CallsBack =>
      var prefix, delta := g.Callback();
  }

  /** After any mix of jumps, decode steps and callbacks, nothing is lost or sent twice. */
  method Run(tk: Tokenizer, prompt: seq<Token>, first: Token, events: seq<Event>, stopIds: set<Token>)
    returns (g: Generation)
    requires tk.Faithful()
    ensures g.tk == tk && g.prompt == prompt && g.nextCallback <= |g.m.committed|
    ensures g.streamed + g.extraPrefix + tk.Text(g.m.committed[g.nextCallback..]) == tk.Text(g.m.committed)
    ensures Counts(g.m.appeared, multiset(g.m.committed))
    ensures |g.kv| + g.m.numNext == |prompt| + |g.m.committed| && g.kv <= prompt + g.m.committed
  {
    g := new Generation(tk, prompt, first);
    for i := 0 to |events|
      invariant g.Valid() && g.tk == tk && g.prompt == prompt
      invariant fresh(g) && fresh(g.m)
    {
      Handle(g, events[i], stopIds);
    }
    assert g.Valid();
  }

  /** What it takes for the token t to be swallowed after the string "b" was forced. */
  ghost predicate SwallowsAfter(tk: Tokenizer, first: Token, t: Token) {
    var c := Jumped(tk, [first], "b");
    tk.Faithful() && Swallowed(tk, c, t) && Replaced(c, Refit(tk, c, tk.TokenText(t))) == c
  }

  /** Then the next decode has nothing to feed. */
  method JumpThenDecode(tk: Tokenizer, first: Token, t: Token) returns (g: Generation)
    requires SwallowsAfter(tk, first, t)
    ensures g.Valid() && g.tk == tk && g.m.committed == Jumped(tk, [first], "b") && g.m.numNext == 0
  {
    g := new Generation(tk, [], first);
    var delta := g.JumpForward("b");
    g.Decode(t, {});
  }

  /** After "a", the grammar forces "b", and a token without text is sampled. */
  method SwallowingRun() returns (g: Generation)
    ensures g.Valid() && g.m.committed == [97, 98] && g.m.numNext == 0
  {
    JumpToB();
    EmptyTokenSwallowed([97, 98]);
    CharsFaithful();
    CharsAgain(Past([97, 98]));
    g := JumpThenDecode(CharTokenizer(), 97, 0xD800);
  }

  lemma JumpToB()
    ensures Jumped(CharTokenizer(), [97], "b") == [97, 98]
  {
    var tk := CharTokenizer();
    assert Past([97]) == [97] && [97][1..] == [];
    assert tk.table[97] == "a";
    assert tk.Text([97]) == "a" + tk.Text([]);
    assert tk.Text([97]) + "b" == "ab";
    assert tk.encode("ab") == [97, 98];
  }

  lemma AtStart(tk: Tokenizer, prompt: seq<Token>, first: Token)
    ensures prompt == prompt + [first][..0] && Streams(tk, [first], 0, "" + "")
  {
    assert [first][0..] == [first];
  }

  lemma AppendOne(tk: Tokenizer, c: seq<Token>, t: Token, next: nat, sent: string)
    requires Streams(tk, c, next, sent)
    ensures Streams(tk, c + [t], next, sent)
  {
    assert (c + [t])[next..] == c[next..] + [t];
    tk.TextSnoc(c[next..], t);
    tk.TextSnoc(c, t);
    ConcatAssoc(sent, tk.Text(c[next..]), tk.TokenText(t));
  }

  /** After the stream bookkeeping for replacing the tail of the committed tokens. */
  lemma StreamAfter(tk: Tokenizer, c: seq<Token>, rollback: nat, news: seq<Token>, delta: string,
                    next: nat, streamed: string, extra: string)
    requires rollback <= |c| && Streams(tk, c, next, streamed + extra)
    requires tk.Text(c[..|c| - rollback] + news) == tk.Text(c) + delta
    ensures var c' := c[..|c| - rollback] + news;
            if rollback > |c| - next then Streams(tk, c', |c'|, streamed + (extra + tk.Text(c[next..]) + delta))
            else Streams(tk, c', next, streamed + extra)
  {
    var c' := c[..|c| - rollback] + news;
    if rollback > |c| - next {
      assert c'[|c'|..] == [];
      ConcatAssoc(streamed, extra, tk.Text(c[next..]));
      ConcatAssoc(streamed, extra + tk.Text(c[next..]), delta);
    } else {
      assert c'[..next] == c[..next] && c' == c'[..next] + c'[next..] && c == c[..next] + c[next..];
      tk.TextConcat(c'[..next], c'[next..]);
      tk.TextConcat(c[..next], c[next..]);
      SameTail(streamed + extra, tk.Text(c[..next]), tk.Text(c[next..]));
    }
  }

  lemma SameTail(a: string, b: string, t: string)
    requires a + t == b + t
    ensures a == b
  {
    assert |a| == |b|;
    assert a == (a + t)[..|a|] && b == (b + t)[..|b|];
  }
}
