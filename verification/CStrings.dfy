/** C strings in a character buffer, and strtok, which cuts them up by writing NULs into it. */
module CStrings {

  const NUL: char := '\0'

  /** The first place from i on that is no delimiter. */
  function SkipFrom(s: string, i: nat, delims: set<char>): (e: nat)
    requires i <= |s|
    ensures i <= e <= |s| && (forall k :: i <= k < e ==> s[k] in delims) && (e < |s| ==> s[e] !in delims)
    decreases |s| - i
  {
    if i == |s| || s[i] !in delims then i else SkipFrom(s, i + 1, delims)
  }

  /** The first place from i on that is one. */
  function SpanFrom(s: string, i: nat, delims: set<char>): (e: nat)
    requires i <= |s|
    ensures i <= e <= |s| && (forall k :: i <= k < e ==> s[k] !in delims) && (e < |s| ==> s[e] in delims)
    decreases |s| - i
  {
    if i == |s| || s[i] in delims then i else SpanFrom(s, i + 1, delims)
  }

  /** Number of leading characters that are delimiters. */
  function Skip(s: string, delims: set<char>): (n: nat)
    ensures n <= |s| && (forall k :: 0 <= k < n ==> s[k] in delims) && (n < |s| ==> s[n] !in delims)
  {
    SkipFrom(s, 0, delims)
  }

  /** Number of leading characters that are none. */
  function Span(s: string, delims: set<char>): (n: nat)
    ensures n <= |s| && (forall k :: 0 <= k < n ==> s[k] !in delims) && (n < |s| ==> s[n] in delims)
  {
    SpanFrom(s, 0, delims)
  }

  /** Where the first token ends. */
  function TokenEnd(s: string, delims: set<char>): (n: nat)
    ensures Skip(s, delims) <= n <= |s|
    ensures (forall k :: Skip(s, delims) <= k < n ==> s[k] !in delims) && (n < |s| ==> s[n] in delims)
    ensures Skip(s, delims) < |s| ==> Skip(s, delims) < n
  {
    SpanFrom(s, Skip(s, delims), delims)
  }

  function Token(s: string, delims: set<char>): string {
    s[Skip(s, delims)..TokenEnd(s, delims)]
  }

  /** What strtok goes on from: the text behind the delimiter that it has overwritten. */
  function Rest(s: string, delims: set<char>): string {
    if TokenEnd(s, delims) < |s| then s[TokenEnd(s, delims) + 1..] else ""
  }

  function Tokens(s: string, delims: set<char>): seq<string>
    decreases |s|
  {
    if Skip(s, delims) == |s| then [] else [Token(s, delims)] + Tokens(Rest(s, delims), delims)
  }

  predicate NoneOf(s: string, delims: set<char>) {
    forall i :: 0 <= i < |s| ==> s[i] !in delims
  }

  predicate AllOf(s: string, delims: set<char>) {
    forall i :: 0 <= i < |s| ==> s[i] in delims
  }

  /** A text that starts with delimiters, a word, and a delimiter or the end. */
  lemma TokenIs(s: string, delims: set<char>, pre: string, word: string, post: string)
    requires s == pre + word + post && AllOf(pre, delims) && word != "" && NoneOf(word, delims)
    requires post == "" || post[0] in delims
    ensures Skip(s, delims) == |pre| && TokenEnd(s, delims) == |pre| + |word| && Token(s, delims) == word
    ensures Rest(s, delims) == if post == "" then "" else post[1..]
    ensures Tokens(s, delims) == [word] + Tokens(if post == "" then "" else post[1..], delims)
  {
    var a, e := Skip(s, delims), TokenEnd(s, delims);
    assert s[|pre|] == word[0];
    assert forall i :: 0 <= i < |pre| ==> s[i] == pre[i];
    assert forall i :: 0 <= i < |word| ==> s[|pre| + i] == word[i];
    if post != "" { assert s[|pre| + |word|] == post[0]; }
    assert a == |pre|;
    assert e == |pre| + |word|;
    assert s[a..e] == word && s[e..] == post;
    if post != "" { assert s[e + 1..] == post[1..]; }
  }

  lemma NoTokens(s: string, delims: set<char>)
    requires AllOf(s, delims)
    ensures Tokens(s, delims) == []
  {
  }

  function Behind(post: string): string {
    if post == "" then "" else post[1..]
  }

  /** A text with a token in it, cut up. */
  lemma FirstToken(s: string, delims: set<char>) returns (pre: string, word: string, post: string)
    requires Skip(s, delims) < |s|
    ensures s == pre + word + post && AllOf(pre, delims) && word != "" && NoneOf(word, delims)
    ensures post == "" || post[0] in delims
    ensures |post| < |s| && Tokens(s, delims) == [word] + Tokens(Behind(post), delims)
  {
    var a, e := Skip(s, delims), TokenEnd(s, delims);
    pre, word, post := s[..a], s[a..e], s[e..];
    TokenIs(s, delims, pre, word, post);
  }

  lemma Assoc(a: string, b: string, c: string, d: string)
    ensures a + (b + c + d) == (a + b) + c + d
  {
  }

  /** Leading delimiters make no difference. */
  lemma LeadingDelims(pre: string, y: string, delims: set<char>)
    requires AllOf(pre, delims)
    ensures Tokens(pre + y, delims) == Tokens(y, delims)
  {
    if Skip(y, delims) == |y| {
      assert AllOf(pre + y, delims);
      NoTokens(pre + y, delims);
      NoTokens(y, delims);
    } else {
      var p, word, post := FirstToken(y, delims);
      Assoc(pre, p, word, post);
      TokenIs(pre + y, delims, pre + p, word, post);
    }
  }

  lemma Regroup(pre: string, word: string, post: string, d: char, y: string)
    ensures (pre + word + post) + [d] + y == pre + word + (post + [d] + y)
    ensures Behind(post + [d] + y) == if post == "" then y else Behind(post) + [d] + y
  {
  }

  lemma AssocTokens(word: string, a: seq<string>, b: seq<string>)
    ensures [word] + (a + b) == ([word] + a) + b
  {
  }

  lemma TokenBefore(pre: string, word: string, post: string, d: char, y: string, delims: set<char>)
    requires d in delims && AllOf(pre, delims) && word != "" && NoneOf(word, delims)
    requires post == "" || post[0] in delims
    ensures Tokens(pre + word + post + [d] + y, delims) == [word] + Tokens(Behind(post + [d] + y), delims)
  {
    Regroup(pre, word, post, d, y);
    var more := post + [d] + y;
    assert more != "" && more[0] in delims;
    TokenIs(pre + word + more, delims, pre, word, more);
  }

  /** A delimiter separates the tokens before it from those after it. */
  lemma {:induction false} TokensSplit(x: string, d: char, y: string, delims: set<char>)
    requires d in delims
    ensures Tokens(x + [d] + y, delims) == Tokens(x, delims) + Tokens(y, delims)
    decreases |x|
  {
    if Skip(x, delims) == |x| {
      SplitBlank(x, d, y, delims);
    } else {
      var pre, word, post := FirstToken(x, delims);
      TokenBefore(pre, word, post, d, y, delims);
      Regroup(pre, word, post, d, y);
      if post == "" {
        NoTokens("", delims);
        AssocTokens(word, [], Tokens(y, delims));
      } else {
        TokensSplit(Behind(post), d, y, delims);
        AssocTokens(word, Tokens(Behind(post), delims), Tokens(y, delims));
      }
    }
  }

  /** As above, when the delimiter is the first character of the second text. */
  lemma TokensConcat(x: string, y: string, delims: set<char>)
    requires y == "" || y[0] in delims
    ensures Tokens(x + y, delims) == Tokens(x, delims) + Tokens(y, delims)
  {
    if y == "" {
      assert x + y == x;
      NoTokens(y, delims);
    } else {
      var d, z := y[0], y[1..];
      assert y == [d] + z && x + y == x + [d] + z;
      TokensSplit(x, d, z, delims);
      LeadingDelims([d], z, delims);
    }
  }

  lemma SplitBlank(x: string, d: char, y: string, delims: set<char>)
    requires d in delims && AllOf(x, delims)
    ensures Tokens(x + [d] + y, delims) == Tokens(x, delims) + Tokens(y, delims)
  {
    assert AllOf(x + [d], delims);
    LeadingDelims(x + [d], y, delims);
    NoTokens(x, delims);
  }

  /* ---------------- in memory ---------------- */

  /** A buffer that ends in a NUL. */
  predicate Ended(b: seq<char>) {
    b != [] && b[|b| - 1] == NUL
  }

  predicate IsEnd(b: seq<char>, i: nat, e: int) {
    i <= e < |b| && b[e] == NUL && forall k :: i <= k < e ==> b[k] != NUL
  }

  lemma {:induction false} HasEnd(b: seq<char>, i: nat)
    requires Ended(b) && i < |b|
    ensures exists e :: IsEnd(b, i, e)
    decreases |b| - i
  {
    if b[i] == NUL {
      assert IsEnd(b, i, i);
    } else {
      HasEnd(b, i + 1);
      var e :| IsEnd(b, i + 1, e);
      assert IsEnd(b, i, e);
    }
  }

  /** Index of the first NUL from i on. */
  ghost function EndOf(b: seq<char>, i: nat): (e: nat)
    requires Ended(b) && i < |b|
    ensures i <= e < |b| && b[e] == NUL && forall k :: i <= k < e ==> b[k] != NUL
  {
    HasEnd(b, i);
    var e :| IsEnd(b, i, e);
    e
  }

  /** The string that starts at index i. */
  ghost function CStr(b: seq<char>, i: nat): (s: string)
    requires Ended(b) && i < |b|
    ensures |s| == EndOf(b, i) - i && forall k :: 0 <= k < |s| ==> s[k] == b[i + k]
  {
    seq(EndOf(b, i) - i, k requires 0 <= k < EndOf(b, i) - i => b[i + k])
  }

  lemma EndIs(b: seq<char>, i: nat, n: nat)
    requires Ended(b) && i + n < |b| && b[i + n] == NUL && forall k :: i <= k < i + n ==> b[k] != NUL
    ensures EndOf(b, i) == i + n
  {
  }

  /** A string that is in memory, with a NUL behind it. */
  lemma CStrIs(b: seq<char>, i: nat, s: string)
    requires Ended(b) && i + |s| < |b| && b[i + |s|] == NUL
    requires forall k :: 0 <= k < |s| ==> b[i + k] == s[k] && s[k] != NUL
    ensures EndOf(b, i) == i + |s| && CStr(b, i) == s
  {
    forall k | i <= k < i + |s| ensures b[k] != NUL { assert b[i + (k - i)] == s[k - i]; }
    EndIs(b, i, |s|);
  }

  /** A NUL written into a string ends it there, and leaves what comes after it. */
  lemma Cut(b: seq<char>, i: nat, n: nat)
    requires Ended(b) && i < |b| && n < |CStr(b, i)|
    ensures var b' := b[i + n := NUL];
      Ended(b') && CStr(b', i) == CStr(b, i)[..n] && EndOf(b', i) == i + n && i + n + 1 < |b'|
      && CStr(b', i + n + 1) == CStr(b, i)[n + 1..] && EndOf(b', i + n + 1) == EndOf(b, i)
  {
    var b' := b[i + n := NUL];
    var s := CStr(b, i);
    CStrIs(b', i, s[..n]);
    CStrIs(b', i + n + 1, s[n + 1..]);
  }

  /** The buffer after strtok: a NUL behind the token, unless the string ends there. */
  ghost function AfterStrtok(b: seq<char>, i: nat, delims: set<char>): (b': seq<char>)
    requires Ended(b) && i < |b|
    ensures |b'| == |b| && Ended(b')
    ensures forall k :: 0 <= k < |b| && (k < i || EndOf(b, i) <= k) ==> b'[k] == b[k]
  {
    var s := CStr(b, i);
    if TokenEnd(s, delims) < |s| && Skip(s, delims) < |s| then b[i + TokenEnd(s, delims) := NUL] else b
  }

  /** The two scans of strtok: over characters that are delimiters, or over those that are not. */
  method Scan(buf: array<char>, start: nat, delims: set<char>, over: bool) returns (p: nat)
    requires start < buf.Length && Ended(buf[..]) && NUL !in delims
    ensures start <= p <= EndOf(buf[..], start)
    ensures forall k :: start <= k < p ==> (buf[k] in delims) == over
    ensures buf[p] != NUL ==> (buf[p] in delims) != over
  {
    p := start;
    while buf[p] != NUL && (buf[p] in delims) == over
      invariant start <= p <= EndOf(buf[..], start)
      invariant forall k :: start <= k < p ==> (buf[k] in delims) == over
      decreases EndOf(buf[..], start) - p
    {
      p := p + 1;
    }
  }

  /** The outcome of strtok on a string: where the token starts, and where to go on. */
  ghost predicate StrtokGives(b: seq<char>, start: nat, delims: set<char>, b': seq<char>, tok: int, next: int)
    requires Ended(b) && start < |b|
  {
    var s := CStr(b, start);
    && b' == AfterStrtok(b, start, delims) && start <= next < |b| && EndOf(b', next) == EndOf(b, start)
    && (if Skip(s, delims) == |s| then tok == -1 && CStr(b', next) == ""
        else 0 <= tok < |b| && tok == start + Skip(s, delims) && CStr(b', tok) == Token(s, delims)
             && EndOf(b', tok) <= next && CStr(b', next) == Rest(s, delims))
  }

  /** strtok: the index of the next token, or -1, and where to go on. */
  method Strtok(buf: array<char>, start: nat, delims: set<char>) returns (tok: int, next: nat)
    requires start < buf.Length && Ended(buf[..]) && NUL !in delims
    modifies buf
    ensures next < buf.Length && StrtokGives(old(buf[..]), start, delims, buf[..], tok, next)
  {
    ghost var b := buf[..];
    var p := Scan(buf, start, delims, true);
    SkipPlace(b, start, delims, p);
    if buf[p] == NUL {
      return -1, p;
    }
    tok := p;
    next := CutToken(buf, start, p, delims);
  }

  /** Ends the token that starts at tok. */
  method CutToken(buf: array<char>, ghost start: nat, tok: nat, delims: set<char>) returns (next: nat)
    requires start < buf.Length && Ended(buf[..]) && NUL !in delims
    requires tok == start + Skip(CStr(buf[..], start), delims) < EndOf(buf[..], start)
    modifies buf
    ensures StrtokGives(old(buf[..]), start, delims, buf[..], tok, next)
  {
    ghost var b := buf[..];
    NextByte(b, start, tok);
    next := Scan(buf, tok, delims, false);
    TokenStep(b, start, delims, tok, next);
    if buf[next] != NUL {
      buf[next] := NUL;
      assert buf[..] == b[next := NUL];
      next := next + 1;
    }
  }

  lemma NextByte(b: seq<char>, i: nat, p: nat)
    requires Ended(b) && i < |b| && i <= p <= EndOf(b, i)
    ensures p < |b| && (b[p] == NUL <==> p == EndOf(b, i)) && EndOf(b, p) == EndOf(b, i)
    ensures |CStr(b, i)| == EndOf(b, i) - i && forall k :: 0 <= k < |CStr(b, i)| ==> CStr(b, i)[k] == b[i + k]
  {
  }

  lemma SkipPlace(b: seq<char>, start: nat, delims: set<char>, p: nat)
    requires Ended(b) && start < |b| && start <= p <= EndOf(b, start)
    requires (forall k :: start <= k < p ==> b[k] in delims) && (b[p] != NUL ==> b[p] !in delims)
    ensures p - start == Skip(CStr(b, start), delims) && (b[p] == NUL <==> p - start == |CStr(b, start)|)
    ensures b[p] == NUL ==> StrtokGives(b, start, delims, b, -1, p)
  {
    NextByte(b, start, p);
    var s := CStr(b, start);
    var n := Skip(s, delims);
    assert n < |s| ==> s[n] == b[start + n];
    assert p < EndOf(b, start) ==> s[p - start] == b[p];
    assert p - start == n;
    if b[p] == NUL { CStrIs(b, p, ""); }
  }

  lemma TokenStep(b: seq<char>, start: nat, delims: set<char>, tok: nat, e: nat)
    requires Ended(b) && start < |b| && tok == start + Skip(CStr(b, start), delims) < EndOf(b, start)
    requires tok <= e <= EndOf(b, start) && forall k :: tok <= k < e ==> b[k] !in delims
    requires b[e] != NUL ==> b[e] in delims
    ensures b[e] == NUL ==> StrtokGives(b, start, delims, b, tok, e)
    ensures b[e] != NUL ==> e + 1 < |b| && StrtokGives(b, start, delims, b[e := NUL], tok, e + 1)
  {
    NextByte(b, start, e);
    var s := CStr(b, start);
    var n := TokenEnd(s, delims);
    assert n < |s| ==> s[n] == b[start + n];
    assert e < EndOf(b, start) ==> s[e - start] == b[e];
    assert e - start == n;
    if b[e] == NUL { TokenLast(b, start, delims, tok, e); } else { TokenCut(b, start, delims, tok, e); }
  }

  lemma TokenLast(b: seq<char>, start: nat, delims: set<char>, tok: nat, e: nat)
    requires Ended(b) && start < |b| && Skip(CStr(b, start), delims) < |CStr(b, start)|
    requires tok == start + Skip(CStr(b, start), delims)
    requires e == start + TokenEnd(CStr(b, start), delims) == EndOf(b, start)
    ensures StrtokGives(b, start, delims, b, tok, e)
  {
  }

  lemma TokenCut(b: seq<char>, start: nat, delims: set<char>, tok: nat, e: nat)
    requires Ended(b) && start < |b| && Skip(CStr(b, start), delims) < |CStr(b, start)|
    requires tok == start + Skip(CStr(b, start), delims)
    requires e == start + TokenEnd(CStr(b, start), delims) < EndOf(b, start)
    ensures e + 1 < |b| && StrtokGives(b, start, delims, b[e := NUL], tok, e + 1)
  {
  }

  /** strchr, for a character other than NUL. */
  method Strchr(buf: array<char>, start: nat, c: char) returns (p: int)
    requires start < buf.Length && Ended(buf[..]) && c != NUL
    ensures p == -1 <==> c !in CStr(buf[..], start)
    ensures p != -1 ==> start <= p < EndOf(buf[..], start) && p - start == Span(CStr(buf[..], start), {c})
  {
    ghost var s := CStr(buf[..], start);
    p := start;
    while buf[p] != NUL && buf[p] != c
      invariant start <= p <= EndOf(buf[..], start)
      invariant forall k :: 0 <= k < p - start ==> s[k] != c
      decreases EndOf(buf[..], start) - p
    {
      assert buf[p] == s[p - start];
      p := p + 1;
    }
    if buf[p] == NUL {
      p := -1;
    } else {
      assert s[p - start] == c;
      assert p - start == Span(s, {c});
    }
  }

  /** What the string at start has become: it ends where its first token does. */
  lemma CutString(b: seq<char>, start: nat, delims: set<char>)
    requires Ended(b) && start < |b| && Skip(CStr(b, start), delims) < |CStr(b, start)|
    ensures CStr(AfterStrtok(b, start, delims), start) == CStr(b, start)[..TokenEnd(CStr(b, start), delims)]
    ensures EndOf(AfterStrtok(b, start, delims), start) <= EndOf(b, start)
  {
    var s := CStr(b, start);
    var n := TokenEnd(s, delims);
    var b' := AfterStrtok(b, start, delims);
    if n < |s| {
      assert b' == b[start + n := NUL];
      Cut(b, start, n);
    } else {
      assert b' == b && s[..n] == s;
    }
  }

  /** Nothing has been written to but what lies from lo up to hi. */
  ghost predicate Inside(b: seq<char>, b': seq<char>, lo: int, hi: int) {
    |b'| == |b| && Ended(b') && forall k :: 0 <= k < |b| && (k < lo || hi <= k) ==> b'[k] == b[k]
  }

  /** Only the string at i has been written to. */
  ghost predicate Within(b: seq<char>, b': seq<char>, i: nat)
    requires Ended(b) && i < |b|
  {
    Inside(b, b', i, EndOf(b, i))
  }

  lemma InsideTrans(b: seq<char>, b': seq<char>, b'': seq<char>, lo: int, hi: int, lo': int, hi': int)
    requires Inside(b, b', lo, hi) && Inside(b', b'', lo', hi')
    ensures Inside(b, b'', if lo < lo' then lo else lo', if hi > hi' then hi else hi')
  {
  }

  ghost function OneOrNone(b: seq<char>, tok: int): seq<string>
    requires Ended(b) && tok < |b|
  {
    if tok < 0 then [] else [CStr(b, tok)]
  }

  /** strtok in terms of the list of tokens: it delivers the first and goes on with the others. */
  ghost predicate Delivers(b: seq<char>, start: nat, delims: set<char>, b': seq<char>, tok: int, next: int)
    requires Ended(b) && start < |b|
  {
    && start <= next < |b| && -1 <= tok < |b| && Within(b, b', start) && EndOf(b', next) == EndOf(b, start)
    && Tokens(CStr(b, start), delims) == OneOrNone(b', tok) + Tokens(CStr(b', next), delims)
    && (tok < 0 ==> Tokens(CStr(b', next), delims) == [])
    && (tok >= 0 ==> EndOf(b', tok) <= next && |CStr(b', next)| < |CStr(b, start)|)
  }

  method NextToken(buf: array<char>, start: nat, delims: set<char>) returns (tok: int, next: nat)
    requires start < buf.Length && Ended(buf[..]) && NUL !in delims
    modifies buf
    ensures Delivers(old(buf[..]), start, delims, buf[..], tok, next) && next < buf.Length
  {
    ghost var b := buf[..];
    tok, next := Strtok(buf, start, delims);
    TokenDelivered(b, start, delims, buf[..], tok, next);
  }

  lemma TokenDelivered(b: seq<char>, start: nat, delims: set<char>, b': seq<char>, tok: int, next: nat)
    requires Ended(b) && Ended(b') && start < |b| && |b'| == |b| && next < |b|
    requires StrtokGives(b, start, delims, b', tok, next)
    ensures Delivers(b, start, delims, b', tok, next)
  {
  }

  /** A string that ends before the one written to stays as it is. */
  lemma Keep(b: seq<char>, b': seq<char>, i: nat, tok: nat)
    requires Ended(b) && i < |b| && Within(b, b', i) && tok < |b| && EndOf(b, tok) <= i
    ensures EndOf(b', tok) == EndOf(b, tok) && CStr(b', tok) == CStr(b, tok)
  {
  }

  /** So does one that starts behind it. */
  lemma KeepBehind(b: seq<char>, b': seq<char>, i: nat, next: nat)
    requires Ended(b) && i < |b| && Within(b, b', i) && EndOf(b, i) <= next < |b|
    ensures EndOf(b', next) == EndOf(b, next) && CStr(b', next) == CStr(b, next)
  {
  }

  lemma WithinTrans(b: seq<char>, b': seq<char>, b'': seq<char>, i: nat, j: nat)
    requires Ended(b) && i <= j < |b| && Within(b, b', i) && EndOf(b', j) <= EndOf(b, i) && Within(b', b'', j)
    ensures Within(b, b'', i)
  {
  }

  /** The string at an index, as a value. */
  method Read(buf: array<char>, i: nat) returns (s: string)
    requires i < buf.Length && Ended(buf[..])
    ensures s == CStr(buf[..], i)
  {
    s := "";
    var p := i;
    while buf[p] != NUL
      invariant i <= p <= EndOf(buf[..], i) && s == CStr(buf[..], i)[..p - i]
      decreases EndOf(buf[..], i) - p
    {
      s := s + [buf[p]];
      p := p + 1;
    }
  }
}
