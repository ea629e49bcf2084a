/** strtok of the user-side string library, and the splitting it performs. */
module Strtok {
  import opened Memory
  import opened CStrings

  // ---- The words of a text ----

  datatype Span = Span(lo: nat, hi: nat)

  /** The spans are exactly the maximal delimiter-free runs of s[from..]. */
  ghost predicate SplitsFrom(s: seq<byte>, delims: seq<byte>, from: nat, spans: seq<Span>) {
    && (forall i :: 0 <= i < |spans| ==> from <= spans[i].lo < spans[i].hi <= |s|)
    && (forall i, k :: 0 <= i < |spans| && spans[i].lo <= k < spans[i].hi ==> s[k] !in delims)
    && (forall i, j :: 0 <= i < j < |spans| ==> spans[i].hi < spans[j].lo)
    && (forall k :: from <= k < |s| && s[k] !in delims ==>
          exists i :: 0 <= i < |spans| && spans[i].lo <= k < spans[i].hi)
  }

  /** The first position from `p` on that holds no delimiter. */
  function SkipDelims(s: seq<byte>, p: nat, delims: seq<byte>): (q: nat)
    requires p <= |s|
    ensures p <= q <= |s|
    ensures forall k :: p <= k < q ==> s[k] in delims
    ensures q < |s| ==> s[q] !in delims
    decreases |s| - p
  {
    if p == |s| || s[p] !in delims then p else SkipDelims(s, p + 1, delims)
  }

  /** The first position from `p` on that holds a delimiter. */
  function WordEnd(s: seq<byte>, p: nat, delims: seq<byte>): (q: nat)
    requires p <= |s|
    ensures p <= q <= |s|
    ensures forall k :: p <= k < q ==> s[k] !in delims
    ensures q < |s| ==> s[q] in delims
    decreases |s| - p
  {
    if p == |s| || s[p] in delims then p else WordEnd(s, p + 1, delims)
  }

  lemma SkipOne(s: seq<byte>, p: nat, delims: seq<byte>)
    requires p <= |s|
    ensures if p < |s| && s[p] in delims then SkipDelims(s, p, delims) == SkipDelims(s, p + 1, delims)
            else SkipDelims(s, p, delims) == p
  {
  }

  lemma EndOne(s: seq<byte>, p: nat, delims: seq<byte>)
    requires p <= |s|
    ensures if p < |s| && s[p] !in delims then WordEnd(s, p, delims) == WordEnd(s, p + 1, delims)
            else WordEnd(s, p, delims) == p
  {
  }

  /** Where the search for the next word goes on. */
  function Resume(s: seq<byte>, hi: nat): (q: nat)
    requires hi <= |s|
    ensures hi <= q <= |s|
  {
    if hi < |s| then hi + 1 else hi
  }

  function Spans(s: seq<byte>, from: nat, delims: seq<byte>): (spans: seq<Span>)
    requires from <= |s|
    decreases |s| - from
  {
    var lo := SkipDelims(s, from, delims);
    if lo == |s| then []
    else
      var hi := WordEnd(s, lo, delims);
      [Span(lo, hi)] + Spans(s, Resume(s, hi), delims)
  }

  lemma {:induction false} SpansSplit(s: seq<byte>, from: nat, delims: seq<byte>)
    requires from <= |s|
    ensures SplitsFrom(s, delims, from, Spans(s, from, delims))
    decreases |s| - from
  {
    var lo := SkipDelims(s, from, delims);
    if lo < |s| {
      var hi := WordEnd(s, lo, delims);
      SpansSplit(s, Resume(s, hi), delims);
      SplitsOneMore(s, delims, from, Span(lo, hi), Spans(s, Resume(s, hi), delims));
    }
  }

  lemma SpannedOneMore(s: seq<byte>, delims: seq<byte>, from: nat, first: Span, rest: seq<Span>)
    requires from <= first.lo < first.hi <= |s|
    requires forall k :: from <= k < first.lo ==> s[k] in delims
    requires first.hi < |s| ==> s[first.hi] in delims
    requires forall k :: Resume(s, first.hi) <= k < |s| && s[k] !in delims ==>
               exists i :: 0 <= i < |rest| && rest[i].lo <= k < rest[i].hi
    ensures forall k :: from <= k < |s| && s[k] !in delims ==>
              exists i :: 0 <= i < |([first] + rest)| && ([first] + rest)[i].lo <= k < ([first] + rest)[i].hi
  {
    var spans := [first] + rest;
    forall k | from <= k < |s| && s[k] !in delims
      ensures exists i :: 0 <= i < |spans| && spans[i].lo <= k < spans[i].hi
    {
      if first.lo <= k < first.hi {
        assert spans[0] == first;
      } else {
        var i :| 0 <= i < |rest| && rest[i].lo <= k < rest[i].hi;
        assert spans[i + 1] == rest[i];
      }
    }
  }

  lemma SplitsOneMore(s: seq<byte>, delims: seq<byte>, from: nat, first: Span, rest: seq<Span>)
    requires from <= first.lo < first.hi <= |s|
    requires forall k :: from <= k < first.lo ==> s[k] in delims
    requires forall k :: first.lo <= k < first.hi ==> s[k] !in delims
    requires first.hi < |s| ==> s[first.hi] in delims
    requires SplitsFrom(s, delims, Resume(s, first.hi), rest)
    ensures SplitsFrom(s, delims, from, [first] + rest)
  {
    var spans := [first] + rest;
    SpannedOneMore(s, delims, from, first, rest);
    forall i, j | 0 <= i < j < |spans|
      ensures spans[i].hi < spans[j].lo
    {
      assert spans[j] == rest[j - 1];
      if i > 0 { assert spans[i] == rest[i - 1]; }
    }
  }

  /** There is only one way to split a text into its maximal runs. */
  lemma {:induction false} SplitUnique(s: seq<byte>, delims: seq<byte>, from: nat, spans: seq<Span>)
    requires from <= |s|
    ensures SplitsFrom(s, delims, from, spans) <==> spans == Spans(s, from, delims)
    decreases |s| - from
  {
    SpansSplit(s, from, delims);
    if SplitsFrom(s, delims, from, spans) {
      var lo := SkipDelims(s, from, delims);
      if lo == |s| {
        NoSpans(s, delims, from, spans);
      } else {
        var hi := WordEnd(s, lo, delims);
        FirstSpan(s, delims, from, spans, lo, hi);
        RestSplits(s, delims, from, spans, hi);
        SplitUnique(s, delims, Resume(s, hi), spans[1..]);
      }
    }
  }

  lemma FirstNoDelim(s: seq<byte>, delims: seq<byte>, from: nat, spans: seq<Span>)
    requires SplitsFrom(s, delims, from, spans) && |spans| > 0
    ensures from <= spans[0].lo < |s| && s[spans[0].lo] !in delims
  {
  }

  lemma NoSpans(s: seq<byte>, delims: seq<byte>, from: nat, spans: seq<Span>)
    requires SplitsFrom(s, delims, from, spans)
    requires forall k :: from <= k < |s| ==> s[k] in delims
    ensures spans == []
  {
    if spans != [] { FirstNoDelim(s, delims, from, spans); }
  }

  lemma FirstSpan(s: seq<byte>, delims: seq<byte>, from: nat, spans: seq<Span>, lo: nat, hi: nat)
    requires SplitsFrom(s, delims, from, spans) && from <= lo < hi <= |s|
    requires forall k :: from <= k < lo ==> s[k] in delims
    requires forall k :: lo <= k < hi ==> s[k] !in delims
    requires hi < |s| ==> s[hi] in delims
    ensures |spans| > 0 && spans[0] == Span(lo, hi)
  {
    assert s[lo] !in delims;
    FirstNoDelim(s, delims, from, spans);
    var first := spans[0];
    SpanEnds(s, delims, from, spans, 0);
    var i :| 0 <= i < |spans| && spans[i].lo <= lo < spans[i].hi;
    if hi < first.hi { InSpan(s, delims, from, spans, hi); }
  }

  lemma InSpan(s: seq<byte>, delims: seq<byte>, from: nat, spans: seq<Span>, k: nat)
    requires SplitsFrom(s, delims, from, spans) && |spans| > 0 && spans[0].lo <= k < spans[0].hi
    ensures k < |s| && s[k] !in delims
  {
  }

  /** A span ends at a delimiter or at the end of the text. */
  lemma SpanEnds(s: seq<byte>, delims: seq<byte>, from: nat, spans: seq<Span>, i: nat)
    requires SplitsFrom(s, delims, from, spans) && i < |spans|
    ensures spans[i].hi < |s| ==> s[spans[i].hi] in delims
  {
  }

  lemma RestSplits(s: seq<byte>, delims: seq<byte>, from: nat, spans: seq<Span>, hi: nat)
    requires SplitsFrom(s, delims, from, spans) && |spans| > 0 && spans[0].hi == hi
    ensures SplitsFrom(s, delims, Resume(s, hi), spans[1..])
  {
    var rest := spans[1..];
    forall k | Resume(s, hi) <= k < |s| && s[k] !in delims
      ensures exists i :: 0 <= i < |rest| && rest[i].lo <= k < rest[i].hi
    {
      var i :| 0 <= i < |spans| && spans[i].lo <= k < spans[i].hi;
      assert rest[i - 1] == spans[i];
    }
  }

  /** The words of a text: its maximal delimiter-free runs, in order. */
  function Words(s: seq<byte>, delims: seq<byte>): (words: seq<seq<byte>>)
    ensures |words| == |Spans(s, 0, delims)|
  {
    WordsFrom(s, 0, delims)
  }

  function WordsFrom(s: seq<byte>, from: nat, delims: seq<byte>): (words: seq<seq<byte>>)
    requires from <= |s|
    ensures |words| == |Spans(s, from, delims)|
    ensures forall i :: 0 <= i < |words| ==>
              var span := Spans(s, from, delims)[i];
              span.lo <= span.hi <= |s| && words[i] == s[span.lo..span.hi]
  {
    SpansSplit(s, from, delims);
    var spans := Spans(s, from, delims);
    seq(|spans|, i requires 0 <= i < |spans| => s[spans[i].lo..spans[i].hi])
  }

  lemma {:induction false} SkipShift(s: seq<byte>, r: nat, k: nat, delims: seq<byte>)
    requires r + k <= |s|
    ensures SkipDelims(s, r + k, delims) == r + SkipDelims(s[r..], k, delims)
    decreases |s| - k
  {
    if r + k < |s| && s[r + k] in delims { SkipShift(s, r, k + 1, delims); }
  }

  lemma {:induction false} EndShift(s: seq<byte>, r: nat, k: nat, delims: seq<byte>)
    requires r + k <= |s|
    ensures WordEnd(s, r + k, delims) == r + WordEnd(s[r..], k, delims)
    decreases |s| - k
  {
    if r + k < |s| && s[r + k] !in delims { EndShift(s, r, k + 1, delims); }
  }

  lemma NoWords(s: seq<byte>, from: nat, delims: seq<byte>)
    requires from <= |s| && SkipDelims(s, from, delims) == |s|
    ensures WordsFrom(s, from, delims) == []
  {
  }

  lemma {:induction false} WordsShift(s: seq<byte>, r: nat, k: nat, delims: seq<byte>)
    requires r + k <= |s|
    ensures WordsFrom(s, r + k, delims) == WordsFrom(s[r..], k, delims)
    decreases |s| - k
  {
    hide WordsFrom, SkipDelims, WordEnd, Spans;
    var t := s[r..];
    SkipShift(s, r, k, delims);
    var lo := SkipDelims(t, k, delims);
    if lo < |t| {
      EndShift(s, r, lo, delims);
      var hi := WordEnd(t, lo, delims);
      WordsNext(s, r + k, delims);
      WordsNext(t, k, delims);
      assert s[r + lo..r + hi] == t[lo..hi];
      assert Resume(s, r + hi) == r + Resume(t, hi);
      WordsShift(s, r, Resume(t, hi), delims);
    } else {
      NoWords(s, r + k, delims);
      NoWords(t, k, delims);
    }
  }

  lemma WordsNext(s: seq<byte>, from: nat, delims: seq<byte>)
    requires from <= |s| && SkipDelims(s, from, delims) < |s|
    ensures var lo := SkipDelims(s, from, delims); var hi := WordEnd(s, lo, delims);
      WordsFrom(s, from, delims) == [s[lo..hi]] + WordsFrom(s, Resume(s, hi), delims)
  {
    var lo := SkipDelims(s, from, delims);
    var hi := WordEnd(s, lo, delims);
    var words, rest := WordsFrom(s, from, delims), WordsFrom(s, Resume(s, hi), delims);
    var spans, more := Spans(s, from, delims), Spans(s, Resume(s, hi), delims);
    assert spans == [Span(lo, hi)] + more;
    hide Spans, WordsFrom;
    forall i | 0 <= i < |words|
      ensures words[i] == ([s[lo..hi]] + rest)[i]
    {
      if i > 0 { assert spans[i] == more[i - 1]; }
    }
  }

  /** The first word, and the words of the text after it and its delimiter. */
  lemma WordsOf(s: seq<byte>, delims: seq<byte>)
    ensures var lo := SkipDelims(s, 0, delims);
      if lo == |s| then Words(s, delims) == []
      else
        var hi := WordEnd(s, lo, delims);
        Words(s, delims) == [s[lo..hi]] + Words(s[Resume(s, hi)..], delims)
  {
    hide Spans, WordsFrom;
    var lo := SkipDelims(s, 0, delims);
    if lo == |s| {
      NoWords(s, 0, delims);
    } else {
      WordsNext(s, 0, delims);
      WordsShift(s, Resume(s, WordEnd(s, lo, delims)), 0, delims);
    }
  }

  // ---- strtok ----

  datatype Pointer = Null | To(buffer: array<byte>, at: nat)

  /** The first loop of strtok: past the delimiters. */
  method PastDelimiters(buffer: array<byte>, base: nat, delims: seq<byte>, ghost s: seq<byte>) returns (p: nat)
    requires 0 !in delims && CStringAt(buffer[..], base, s)
    ensures p == base + SkipDelims(s, 0, delims) < buffer.Length
  {
    hide CStringAt, SkipDelims;
    StringBytes(buffer[..], base, s);
    StringEnd(buffer[..], base, s);
    p := base;
    while buffer[p] in delims
      invariant base <= p <= base + |s|
      invariant SkipDelims(s, 0, delims) == SkipDelims(s, p - base, delims)
      decreases base + |s| - p
    {
      SkipOne(s, p - base, delims);
      p := p + 1;
    }
    SkipOne(s, p - base, delims);
  }

  /** Its second loop: to the end of the token, which is cut off at its delimiter. */
  method CutToken(buffer: array<byte>, base: nat, start: nat, delims: seq<byte>, ghost s: seq<byte>)
    returns (cursor: nat)
    requires CStringAt(buffer[..], base, s) && base <= start <= base + |s|
    modifies buffer
    ensures base + WordEnd(s, start - base, delims) < buffer.Length
    ensures cursor == base + Resume(s, WordEnd(s, start - base, delims))
    ensures buffer[..] == old(buffer[..])[base + WordEnd(s, start - base, delims) := 0]
  {
    hide CStringAt, WordEnd;
    StringBytes(buffer[..], base, s);
    StringEnd(buffer[..], base, s);
    cursor := start;
    while buffer[cursor] != 0
      invariant start <= cursor <= base + |s| && buffer[..] == old(buffer[..])
      invariant WordEnd(s, start - base, delims) == WordEnd(s, cursor - base, delims)
      decreases base + |s| - cursor
    {
      EndOne(s, cursor - base, delims);
      var found := buffer[cursor] in delims;
      if found {
        buffer[cursor] := 0;
      }
      cursor := cursor + 1;
      if found {
        return;
      }
    }
    EndOne(s, |s|, delims);
  }

  /** The library's state: the cursor kept between calls. */
  class StringLibrary {
    var sp: Pointer

    constructor ()
      ensures sp == Null
    {
      sp := Null;
    }

    /**
     * strtok. A string passed while the cursor is not null is ignored, and the
     * search goes on at the cursor. `s` is the string from which it searches.
     */
    method Strtok(str: Pointer, delims: seq<byte>, ghost s: seq<byte>) returns (token: Pointer)
      requires 0 !in delims
      requires var p := if sp == Null then str else sp; p.To? ==> CStringAt(p.buffer[..], p.at, s)
      modifies this
      modifies if sp.To? then {sp.buffer} else if str.To? then {str.buffer} else {}
      ensures var p := if old(sp) == Null then str else old(sp);
        if p.Null? then token == Null && sp == Null
        else
          var lo := SkipDelims(s, 0, delims);
          if lo == |s| then token == Null && sp == Null && p.buffer[..] == old(p.buffer[..])
          else
            var hi := WordEnd(s, lo, delims);
            && token == To(p.buffer, p.at + lo)
            && sp == To(p.buffer, p.at + Resume(s, hi))
            && p.buffer[..] == old(p.buffer[..])[p.at + hi := 0]
    {
      hide CStringAt, SkipDelims, WordEnd;
      if str == Null && sp == Null {
        return Null;
      }
      if str != Null && sp == Null {
        sp := str;
      }
      var buffer, base := sp.buffer, sp.at;
      var pStart := PastDelimiters(buffer, base, delims, s);
      StringBytes(buffer[..], base, s);
      if buffer[pStart] == 0 {
        sp := Null;
        return Null;
      }
      var cursor := CutToken(buffer, base, pStart, delims, s);
      sp := To(buffer, cursor);
      token := To(buffer, pStart);
    }

    /** Before a call: the search goes on at p + from, and `tokens` are the words so far. */
    ghost predicate Searching(start: Pointer, buffer: array<byte>, before: seq<byte>, p: nat, s: seq<byte>,
                              from: nat, delims: seq<byte>, tokens: seq<Pointer>, words: seq<seq<byte>>)
      reads buffer
    {
      && from <= |s| && start == To(buffer, p + from) && CStringAt(buffer[..], p + from, s[from..])
      && TokensAt(tokens, words, buffer, buffer[..], p + from, p + |s|)
      && Words(s, delims) == words + Words(s[from..], delims)
      && OnlyDelimsCut(before, buffer[..], p, s, delims)
    }

    /** After the last call: the tokens are all the words. */
    ghost predicate Finished(buffer: array<byte>, before: seq<byte>, p: nat, s: seq<byte>, delims: seq<byte>,
                             tokens: seq<Pointer>)
      reads this, buffer
    {
      && sp == Null && |tokens| == |Words(s, delims)|
      && (forall i :: 0 <= i < |tokens| ==> TokenAt(tokens[i], buffer, buffer[..], Words(s, delims)[i]))
      && OnlyDelimsCut(before, buffer[..], p, s, delims)
    }

    method NextToken(str: Pointer, buffer: array<byte>, delims: seq<byte>, ghost before: seq<byte>, ghost p: nat,
                     ghost s: seq<byte>, ghost from: nat, ghost tokens: seq<Pointer>, ghost words: seq<seq<byte>>)
      returns (token: Pointer, ghost from': nat, ghost words': seq<seq<byte>>)
      requires 0 !in delims
      requires Searching(if sp == Null then str else sp, buffer, before, p, s, from, delims, tokens, words)
      modifies this, buffer
      ensures token == Null ==> Finished(buffer, before, p, s, delims, tokens)
      ensures token != Null ==> from < from' <= |s| && sp != Null
      ensures token != Null ==> Searching(sp, buffer, before, p, s, from', delims, tokens + [token], words')
    {
      hide CStringAt, SkipDelims, WordEnd, Words, TokensAt, OnlyDelimsCut, TokenAt, Spans, Resume;
      ghost var m := buffer[..];
      token := Strtok(str, delims, s[from..]);
      words', from' := TokensOn(buffer, before, m, buffer[..], p, s, from, delims, tokens, words);
      if token == Null {
        assert tokens + [] == tokens;
        TokensTell(tokens, words', buffer, buffer[..], p + from', p + |s|);
      }
    }

    lemma SearchStarts(buffer: array<byte>, p: nat, s: seq<byte>, delims: seq<byte>)
      requires CStringAt(buffer[..], p, s)
      ensures Searching(To(buffer, p), buffer, buffer[..], p, s, 0, delims, [], [])
    {
      hide CStringAt, Words, TokensAt, OnlyDelimsCut;
      assert s[0..] == s;
      NoTokens(buffer, buffer[..], p, s, delims);
    }

    /** The calling protocol: one call with the string, then calls with NULL. The
        tokens are the words, still in place when the loop ends, and only
        delimiters have been overwritten. */
    method Tokens(str: Pointer, delims: seq<byte>, ghost s: seq<byte>) returns (tokens: seq<Pointer>)
      requires 0 !in delims && sp == Null
      requires str.To? && CStringAt(str.buffer[..], str.at, s)
      modifies this, if str.To? then {str.buffer} else {}
      ensures sp == Null
      ensures |tokens| == |Words(s, delims)|
      ensures forall i :: 0 <= i < |tokens| ==> TokenAt(tokens[i], str.buffer, str.buffer[..], Words(s, delims)[i])
      ensures OnlyDelimsCut(old(str.buffer[..]), str.buffer[..], str.at, s, delims)
    {
      hide CStringAt, Words, OnlyDelimsCut, TokenAt, Searching;
      var buffer := str.buffer;
      ghost var before := buffer[..];
      ghost var from: nat, words: seq<seq<byte>> := 0, [];
      tokens := [];
      SearchStarts(buffer, str.at, s, delims);
      var token;
      token, from, words := NextToken(str, buffer, delims, before, str.at, s, 0, [], []);
      while token != Null
        invariant token == Null ==> Finished(buffer, before, str.at, s, delims, tokens)
        invariant token != Null ==> Searching(sp, buffer, before, str.at, s, from, delims, tokens + [token], words)
        invariant token != Null ==> sp != Null && from <= |s|
        decreases if token == Null then 0 else |s| - from + 1
      {
        tokens := tokens + [token];
        token, from, words := NextToken(Null, buffer, delims, before, str.at, s, from, tokens, words);
      }
    }
  }

  ghost predicate TokenAt(token: Pointer, buffer: array<byte>, m: seq<byte>, word: seq<byte>) {
    token.To? && token.buffer == buffer && CStringAt(m, token.at, word)
  }

  /** The text's delimiters may have become terminators; nothing else changed. */
  ghost predicate OnlyDelimsCut(m: seq<byte>, m': seq<byte>, p: nat, s: seq<byte>, delims: seq<byte>) {
    && |m'| == |m|
    && forall k :: 0 <= k < |m| && m'[k] != m[k] ==> p <= k < p + |s| && s[k - p] in delims && m'[k] == 0
  }

  /** The tokens point at the words, and end before `next` unless the text does. */
  ghost predicate TokensAt(tokens: seq<Pointer>, words: seq<seq<byte>>, buffer: array<byte>, m: seq<byte>,
                           next: nat, end: nat)
  {
    && |tokens| == |words|
    && forall i :: 0 <= i < |tokens| ==>
         && TokenAt(tokens[i], buffer, m, words[i])
         && (tokens[i].at + |words[i]| < next || next == end)
  }

  lemma NoTokens(buffer: array<byte>, m: seq<byte>, p: nat, s: seq<byte>, delims: seq<byte>)
    ensures TokensAt([], [], buffer, m, p, p + |s|) && OnlyDelimsCut(m, m, p, s, delims)
  {
  }

  lemma TokensTell(tokens: seq<Pointer>, words: seq<seq<byte>>, buffer: array<byte>, m: seq<byte>,
                   next: nat, end: nat)
    requires TokensAt(tokens, words, buffer, m, next, end)
    ensures |tokens| == |words|
    ensures forall i :: 0 <= i < |tokens| ==> TokenAt(tokens[i], buffer, m, words[i])
  {
  }

  /** What one call leaves in memory: the token, and the text after it. */
  lemma TokenCut(m: seq<byte>, m': seq<byte>, p: nat, s: seq<byte>, delims: seq<byte>)
    requires CStringAt(m, p, s) && SkipDelims(s, 0, delims) < |s|
    requires m' == m[p + WordEnd(s, SkipDelims(s, 0, delims), delims) := 0]
    ensures var lo := SkipDelims(s, 0, delims); var hi := WordEnd(s, lo, delims);
      && CStringAt(m', p + lo, s[lo..hi])
      && CStringAt(m', p + Resume(s, hi), s[Resume(s, hi)..])
  {
    var lo := SkipDelims(s, 0, delims);
    var hi := WordEnd(s, lo, delims);
    hide SkipDelims, WordEnd;
    CutInTwo(m, m', p, s, lo, hi);
  }

  /** A zero in place of the character at hi ends a string, and another begins behind it. */
  lemma CutInTwo(m: seq<byte>, m': seq<byte>, p: nat, s: seq<byte>, lo: nat, hi: nat)
    requires CStringAt(m, p, s) && lo <= hi <= |s| && m' == m[p + hi := 0]
    ensures CStringAt(m', p + lo, s[lo..hi]) && CStringAt(m', p + Resume(s, hi), s[Resume(s, hi)..])
  {
    StringBytes(m, p, s);
    assert m'[p + lo..p + hi] == s[lo..hi];
    assert m'[p + Resume(s, hi)..p + |s|] == s[Resume(s, hi)..];
  }

  /** One more call: its token joins those handed out before. */
  lemma TokensOn(buffer: array<byte>, m0: seq<byte>, m: seq<byte>, m': seq<byte>, p: nat, s: seq<byte>, from: nat,
                 delims: seq<byte>, tokens: seq<Pointer>, words: seq<seq<byte>>)
    returns (words': seq<seq<byte>>, from': nat)
    requires from <= |s| && CStringAt(m, p + from, s[from..])
    requires TokensAt(tokens, words, buffer, m, p + from, p + |s|) && OnlyDelimsCut(m0, m, p, s, delims)
    requires Words(s, delims) == words + Words(s[from..], delims)
    requires var rest := s[from..]; var lo := SkipDelims(rest, 0, delims);
      if lo == |rest| then m' == m
      else m' == m[p + from + WordEnd(rest, lo, delims) := 0]
    ensures var rest := s[from..]; var lo := SkipDelims(rest, 0, delims);
      if lo == |rest| then from' == from && words' == words && Words(s, delims) == words
      else
        var hi := WordEnd(rest, lo, delims);
        && from' == from + Resume(rest, hi) && from < from' <= |s|
        && words' == words + [rest[lo..hi]]
        && CStringAt(m', p + from', s[from'..])
        && Words(s, delims) == words' + Words(s[from'..], delims)
    ensures OnlyDelimsCut(m0, m', p, s, delims)
    ensures var rest := s[from..]; var lo := SkipDelims(rest, 0, delims);
      TokensAt(tokens + (if lo == |rest| then [] else [To(buffer, p + from + lo)]), words', buffer, m',
               p + from', p + |s|)
  {
    hide Words, Spans, SkipDelims, WordEnd, TokensAt, OnlyDelimsCut, CStringAt, Resume;
    var rest := s[from..];
    WordsOf(rest, delims);
    var lo := SkipDelims(rest, 0, delims);
    words', from' := words, from;
    if lo == |rest| {
      assert tokens + [] == tokens && words + [] == words;
    } else {
      var hi := WordEnd(rest, lo, delims);
      words', from' := words + [rest[lo..hi]], from + Resume(rest, hi);
      OneToken(buffer, m0, m, p, s, from, delims, tokens, words, lo, hi);
    }
  }

  lemma OneToken(buffer: array<byte>, m0: seq<byte>, m: seq<byte>, p: nat, s: seq<byte>, from: nat,
                 delims: seq<byte>, tokens: seq<Pointer>, words: seq<seq<byte>>, lo: nat, hi: nat)
    requires from <= |s| && CStringAt(m, p + from, s[from..])
    requires TokensAt(tokens, words, buffer, m, p + from, p + |s|) && OnlyDelimsCut(m0, m, p, s, delims)
    requires var rest := s[from..];
      lo == SkipDelims(rest, 0, delims) && lo < |rest| && hi == WordEnd(rest, lo, delims)
    ensures p + from + hi < |m|
    ensures var rest := s[from..]; var next := from + Resume(rest, hi); var m' := m[p + from + hi := 0];
      && from < next <= |s| && s[next..] == rest[Resume(rest, hi)..]
      && CStringAt(m', p + next, s[next..]) && OnlyDelimsCut(m0, m', p, s, delims)
      && TokensAt(tokens + [To(buffer, p + from + lo)], words + [rest[lo..hi]], buffer, m', p + next, p + |s|)
  {
    hide SkipDelims, WordEnd, TokensAt, OnlyDelimsCut, CStringAt;
    var rest := s[from..];
    var next := from + Resume(rest, hi);
    StringEnd(m, p + from, rest);
    var m' := m[p + from + hi := 0];
    TokenCut(m, m', p + from, rest, delims);
    assert s[next..] == rest[Resume(rest, hi)..];
    CutKeepsTokens(buffer, m, p + from + hi, p + from, p + next, p + |s|, tokens, words);
    TokenJoins(buffer, m', p + from + lo, p + next, p + |s|, tokens, words, rest[lo..hi]);
    OneMoreCut(m0, m, p, s, delims, from + hi, rest, from);
  }

  lemma CutKeepsTokens(buffer: array<byte>, m: seq<byte>, k: nat, next: nat, next': nat, end: nat,
                       tokens: seq<Pointer>, words: seq<seq<byte>>)
    requires TokensAt(tokens, words, buffer, m, next, end) && next <= next' <= end && next < end
    requires next <= k < |m|
    ensures TokensAt(tokens, words, buffer, m[k := 0], next', end)
  {
    forall i | 0 <= i < |tokens| ensures TokenAt(tokens[i], buffer, m[k := 0], words[i]) {
      CStringSame(m, m[k := 0], tokens[i].at, words[i]);
    }
  }

  lemma TokenJoins(buffer: array<byte>, m: seq<byte>, at: nat, next: nat, end: nat,
                   tokens: seq<Pointer>, words: seq<seq<byte>>, word: seq<byte>)
    requires TokensAt(tokens, words, buffer, m, next, end)
    requires CStringAt(m, at, word) && (at + |word| < next || next == end)
    ensures TokensAt(tokens + [To(buffer, at)], words + [word], buffer, m, next, end)
  {
  }

  lemma OneMoreCut(m0: seq<byte>, m: seq<byte>, p: nat, s: seq<byte>, delims: seq<byte>, k: nat,
                   rest: seq<byte>, from: nat)
    requires OnlyDelimsCut(m0, m, p, s, delims) && p + k < |m| && from <= k <= |s| && rest == s[from..]
    requires k < |s| ==> rest[k - from] in delims
    requires k == |s| ==> m[p + k] == 0
    ensures OnlyDelimsCut(m0, m[p + k := 0], p, s, delims)
  {
  }
}
