/** The hints in the environment variable PNETCDF_HINTS: two ways of taking them apart, of which
    one is compiled in. Both work in place on a copy of the variable. */
module Hints {
  import opened NetCDF
  import opened CStrings

  const EQ: set<char> := {'=', ' ', '\t'}
  const BLANK: set<char> := {' ', '\t'}
  const SEMI: set<char> := {';'}

  /** One MPI_Info_set; a missing token is a NULL pointer. */
  datatype Op = Set(key: Option<string>, val: Option<string>)

  function Nth(toks: seq<string>, i: nat): Option<string> {
    if i < |toks| then Some(toks[i]) else None
  }

  /** What the variant with strtok_r does with one hint. */
  function SegStrtokR(s: string): Option<Op> {
    if '=' !in s || |Tokens(s, EQ)| >= 3 then None
    else Some(Set(Nth(Tokens(s, EQ), 0), Nth(Tokens(s, EQ), 1)))
  }

  /** A hint up to the end of its first word, and the rest. */
  function Head(s: string): string {
    s[..TokenEnd(s, BLANK)]
  }

  function After(s: string): string {
    s[TokenEnd(s, BLANK)..]
  }

  /** A text up to the first c in it, and what is beyond. */
  function UpTo(s: string, c: char): string {
    s[..Span(s, {c})]
  }

  function Beyond(s: string, c: char): string {
    if Span(s, {c}) < |s| then s[Span(s, {c}) + 1..] else ""
  }

  /** At most one token for the value. */
  function Valued(key: string, vals: seq<string>): Option<Op> {
    if |vals| >= 2 then None else Some(Set(Some(key), Nth(vals, 0)))
  }

  /** And exactly one for the key. */
  function Pair(keys: seq<string>, vals: seq<string>): Option<Op> {
    if |keys| != 1 then None else Valued(keys[0], vals)
  }

  function SegWord(w: string, delims: set<char>): Option<Op> {
    if '=' !in w then None else Pair(Tokens(UpTo(w, '='), delims), Tokens(Beyond(w, '='), delims))
  }

  /** What the other variant does with it: its test for a blank hint has cut the hint off behind
      the first word. */
  function SegStrtok(s: string): Option<Op> {
    if Skip(s, BLANK) == |s| then None else SegWord(Head(s), EQ)
  }

  /** The calls made for a list of hints, taken apart in one of the ways. */
  function OpsOf(seg: string -> Option<Op>, hints: seq<string>): seq<Op> {
    if hints == [] then []
    else (if seg(hints[0]).Some? then [seg(hints[0]).value] else []) + OpsOf(seg, hints[1..])
  }

  /** The texts between semicolons. */
  function Segments(s: string): (r: seq<string>)
    ensures r != []
    decreases |s|
  {
    if ';' in s then [UpTo(s, ';')] + Segments(Beyond(s, ';')) else [s]
  }

  lemma {:induction false} OpsAppend(seg: string -> Option<Op>, a: seq<string>, b: seq<string>)
    ensures OpsOf(seg, a + b) == OpsOf(seg, a) + OpsOf(seg, b)
  {
    if a == [] {
      assert a + b == b;
    } else {
      assert (a + b)[1..] == a[1..] + b;
      OpsAppend(seg, a[1..], b);
      var x := if seg(a[0]).Some? then [seg(a[0]).value] else [];
      AssocOps(x, OpsOf(seg, a[1..]), OpsOf(seg, b));
    }
  }

  lemma AssocOps(x: seq<Op>, y: seq<Op>, z: seq<Op>)
    ensures x + (y + z) == (x + y) + z
  {
  }

  lemma EmptyHints()
    ensures SegStrtokR("") == None && SegStrtok("") == None
  {
  }

  /** Going from token to token meets the same hints as going from semicolon to semicolon: empty
      ones make no difference. */
  lemma {:induction false} TokensOrSegments(seg: string -> Option<Op>, s: string)
    requires seg("") == None
    ensures OpsOf(seg, Tokens(s, SEMI)) == OpsOf(seg, Segments(s))
    decreases |s|
  {
    if ';' in s {
      var first, rest := FirstHint(s);
      TokensOrSegments(seg, rest);
      OneToken(seg, first);
      OpsAppend(seg, Tokens(first, SEMI), Tokens(rest, SEMI));
      OpsAppend(seg, [first], Segments(rest));
    } else {
      OneToken(seg, s);
    }
  }

  lemma FirstHint(s: string) returns (first: string, rest: string)
    requires ';' in s
    ensures NoneOf(first, SEMI) && |rest| < |s|
    ensures Segments(s) == [first] + Segments(rest)
    ensures Tokens(s, SEMI) == Tokens(first, SEMI) + Tokens(rest, SEMI)
  {
    first, rest := UpTo(s, ';'), Beyond(s, ';');
    assert s == first + [';'] + rest;
    TokensSplit(first, ';', rest, SEMI);
  }

  lemma OneToken(seg: string -> Option<Op>, s: string)
    requires NoneOf(s, SEMI) && seg("") == None
    ensures OpsOf(seg, Tokens(s, SEMI)) == OpsOf(seg, [s])
  {
    if s == "" {
      NoTokens(s, SEMI);
    } else {
      assert s == "" + s + "";
      TokenIs(s, SEMI, "", s, "");
      NoTokens("", SEMI);
    }
  }

  /* ---------------- when the variants agree ---------------- */

  /** The variants make the same call for a hint, or both none. In words: a hint without '=' is
      skipped by both; if the first '=' comes after the first word, only three tokens or more make
      both skip it; otherwise, with exactly one token before the '=', either two tokens follow it
      in the word or none follows the word; and with no token before the '=', again three tokens
      or more are needed. */
  predicate Alike(s: string) {
    var w, n := Head(s), |Tokens(After(s), EQ)|;
    '=' in s ==>
      if '=' !in w then n >= 2
      else
        var l, r := |Tokens(UpTo(w, '='), EQ)|, |Tokens(Beyond(w, '='), EQ)|;
        if l == 1 then r >= 2 || n == 0 else l + r + n >= 3
  }

  lemma TokensOfHint(s: string)
    ensures s == Head(s) + After(s) && Tokens(s, EQ) == Tokens(Head(s), EQ) + Tokens(After(s), EQ)
  {
    var e := TokenEnd(s, BLANK);
    assert s == Head(s) + After(s);
    if e < |s| { assert After(s)[0] == s[e] && s[e] in BLANK; }
    TokensConcat(Head(s), After(s), EQ);
  }

  lemma TokensOfHead(w: string)
    requires '=' in w
    ensures Tokens(w, EQ) == Tokens(UpTo(w, '='), EQ) + Tokens(Beyond(w, '='), EQ)
  {
    var n := Span(w, {'='});
    assert n < |w|;
    assert w == UpTo(w, '=') + ['='] + Beyond(w, '=');
    TokensSplit(UpTo(w, '='), '=', Beyond(w, '='), EQ);
  }

  lemma OneWord(s: string)
    requires Skip(s, BLANK) < |s| && '=' !in Head(s)
    ensures |Tokens(Head(s), EQ)| == 1
  {
  }

  lemma WordBeforeEquals(s: string)
    ensures Skip(s, BLANK) == |s| ==> '=' !in s
  {
  }

  lemma AlikeLater(s: string)
    requires '=' in s && '=' !in Head(s)
    ensures SegStrtok(s) == None
    ensures SegStrtokR(s) == None <==> |Tokens(After(s), EQ)| >= 2
  {
    TokensOfHint(s);
    WordBeforeEquals(s);
    OneWord(s);
  }

  /** The comparison in terms of the tokens left of the '=', right of it, and behind the word. */
  lemma AlikeTokens(x: seq<string>, y: seq<string>, z: seq<string>)
    ensures (if |x + y + z| >= 3 then None else Some(Set(Nth(x + y + z, 0), Nth(x + y + z, 1))))
         == (if |x| != 1 || |y| >= 2 then None else Some(Set(Nth(x, 0), Nth(y, 0))))
       <==> if |x| == 1 then |y| >= 2 || |z| == 0 else |x| + |y| + |z| >= 3
  {
  }

  lemma AlikeInHead(s: string)
    requires '=' in Head(s)
    ensures SegStrtokR(s) == SegStrtok(s) <==>
      var l, r, n := |Tokens(UpTo(Head(s), '='), EQ)|, |Tokens(Beyond(Head(s), '='), EQ)|, |Tokens(After(s), EQ)|;
      if l == 1 then r >= 2 || n == 0 else l + r + n >= 3
  {
    var x, y, z := Tokens(UpTo(Head(s), '='), EQ), Tokens(Beyond(Head(s), '='), EQ), Tokens(After(s), EQ);
    TokensOfHint(s);
    TokensOfHead(Head(s));
    assert '=' in s;
    WordBeforeEquals(s);
    assert SegStrtokR(s) == if |x + y + z| >= 3 then None else Some(Set(Nth(x + y + z, 0), Nth(x + y + z, 1)));
    assert SegStrtok(s) == if |x| != 1 || |y| >= 2 then None else Some(Set(Nth(x, 0), Nth(y, 0)));
    AlikeTokens(x, y, z);
  }

  /** Exactly when the two compiled variants treat a hint alike. */
  lemma AlikeIff(s: string)
    ensures SegStrtokR(s) == SegStrtok(s) <==> Alike(s)
  {
    TokensOfHint(s);
    if '=' in Head(s) {
      AlikeInHead(s);
    } else if '=' in s {
      AlikeLater(s);
    }
  }

  /* ---------------- in place ---------------- */

  ghost function StrAt(b: seq<char>, tok: int): Option<string>
    requires Ended(b) && tok < |b|
  {
    if tok < 0 then None else Some(CStr(b, tok))
  }

  method ReadOrNull(buf: array<char>, tok: int) returns (s: Option<string>)
    requires tok < buf.Length && Ended(buf[..])
    ensures s == StrAt(buf[..], tok)
  {
    if tok < 0 { return None; }
    var t := Read(buf, tok);
    s := Some(t);
  }

  /** Two tokens, and whether there is another. */
  method TwoTokens(buf: array<char>, start: nat, delims: set<char>) returns (first: int, second: int, more: bool)
    requires start < buf.Length && Ended(buf[..]) && NUL !in delims
    modifies buf
    ensures first < buf.Length && second < buf.Length && Within(old(buf[..]), buf[..], start)
    ensures var toks := Tokens(CStr(old(buf[..]), start), delims);
      StrAt(buf[..], first) == Nth(toks, 0) && StrAt(buf[..], second) == Nth(toks, 1) && (more <==> |toks| >= 3)
  {
    ghost var b0 := buf[..];
    var n1, n2, third, n3;
    first, n1 := NextToken(buf, start, delims);
    ghost var b1 := buf[..];
    second, n2 := NextToken(buf, n1, delims);
    ghost var b2 := buf[..];
    third, n3 := NextToken(buf, n2, delims);
    more := third >= 0;
    ThreeTokens(delims, b0, start, b1, first, n1, b2, second, n2, buf[..], third, n3);
  }

  lemma ThreeTokens(delims: set<char>, b0: seq<char>, start: nat, b1: seq<char>, first: int, n1: nat,
                    b2: seq<char>, second: int, n2: nat, b3: seq<char>, third: int, n3: nat)
    requires Ended(b0) && start < |b0| && Delivers(b0, start, delims, b1, first, n1)
    requires Delivers(b1, n1, delims, b2, second, n2) && Delivers(b2, n2, delims, b3, third, n3)
    ensures Within(b0, b3, start)
    ensures var toks := Tokens(CStr(b0, start), delims);
      StrAt(b3, first) == Nth(toks, 0) && StrAt(b3, second) == Nth(toks, 1) && (third >= 0 <==> |toks| >= 3)
  {
    WithinTrans(b0, b1, b2, start, n1);
    WithinTrans(b0, b2, b3, start, n2);
    var t0, o1, t1 := Tokens(CStr(b0, start), delims), OneOrNone(b1, first), Tokens(CStr(b1, n1), delims);
    var o2, t2 := OneOrNone(b2, second), Tokens(CStr(b2, n2), delims);
    var o3, t3 := OneOrNone(b3, third), Tokens(CStr(b3, n3), delims);
    ListOfThree(t0, o1, t1, o2, t2, o3, t3);
    Kept(b1, n1, b2, b3, n2, first);
    if second >= 0 { Keep(b2, b3, n2, second); }
    assert StrAt(b3, first) == Nth(o1, 0);
    assert StrAt(b3, second) == Nth(o2, 0);
  }

  lemma Kept(b1: seq<char>, n1: nat, b2: seq<char>, b3: seq<char>, n2: nat, tok: int)
    requires Ended(b1) && n1 <= n2 < |b1| && Within(b1, b2, n1) && Within(b2, b3, n2)
    requires tok < |b1| && (tok >= 0 ==> EndOf(b1, tok) <= n1)
    ensures StrAt(b3, tok) == StrAt(b1, tok)
  {
    if tok >= 0 {
      Keep(b1, b2, n1, tok);
      Keep(b2, b3, n2, tok);
    }
  }

  lemma ListOfThree(t0: seq<string>, o1: seq<string>, t1: seq<string>, o2: seq<string>, t2: seq<string>,
                    o3: seq<string>, t3: seq<string>)
    requires t0 == o1 + t1 && t1 == o2 + t2 && t2 == o3 + t3 && |o1| <= 1 && |o2| <= 1 && |o3| <= 1
    requires (o1 == [] ==> t1 == []) && (o2 == [] ==> t2 == []) && (o3 == [] ==> t3 == [])
    ensures Nth(t0, 0) == Nth(o1, 0) && Nth(t0, 1) == Nth(o2, 0) && (o3 != [] <==> |t0| >= 3)
  {
  }

  /** One hint, with strtok_r. */
  method HintStrtokR(buf: array<char>, hint: nat) returns (op: Option<Op>)
    requires hint < buf.Length && Ended(buf[..])
    modifies buf
    ensures Within(old(buf[..]), buf[..], hint)
    ensures op == SegStrtokR(CStr(old(buf[..]), hint))
  {
    var eq := Strchr(buf, hint, '=');
    if eq == -1 {
      var word, next := NextToken(buf, hint, BLANK);   // to warn about a hint that is not blank
      return None;
    }
    var key, val, more := TwoTokens(buf, hint, EQ);
    if more { return None; }
    var k := ReadOrNull(buf, key);
    var v := ReadOrNull(buf, val);
    op := Some(Set(k, v));
  }

  /** Cuts a string in two at the first c. */
  method SplitAt(buf: array<char>, start: nat, c: char) returns (at: int)
    requires start < buf.Length && Ended(buf[..]) && c != NUL
    modifies buf
    ensures Within(old(buf[..]), buf[..], start) && -1 <= at < buf.Length
    ensures at == -1 <==> c !in CStr(old(buf[..]), start)
    ensures at == -1 ==> buf[..] == old(buf[..])
    ensures at != -1 ==> start <= at < buf.Length - 1 && EndOf(buf[..], start) == at
    ensures at != -1 ==> CStr(buf[..], start) == UpTo(CStr(old(buf[..]), start), c)
    ensures at != -1 ==> CStr(buf[..], at + 1) == Beyond(CStr(old(buf[..]), start), c)
    ensures at != -1 ==> EndOf(buf[..], at + 1) == EndOf(old(buf[..]), start)
  {
    ghost var b := buf[..];
    at := Strchr(buf, start, c);
    if at != -1 {
      CutAt(b, start, at, c);
      buf[at] := NUL;
      assert buf[..] == b[at := NUL];
    }
  }

  lemma CutAt(b: seq<char>, start: nat, at: nat, c: char)
    requires Ended(b) && start < |b| && start <= at < EndOf(b, start)
    requires at - start == Span(CStr(b, start), {c}) < |CStr(b, start)|
    ensures var b' := b[at := NUL];
      && at + 1 < |b| && Within(b, b', start) && EndOf(b', start) == at && EndOf(b', at + 1) == EndOf(b, start)
      && CStr(b', start) == UpTo(CStr(b, start), c) && CStr(b', at + 1) == Beyond(CStr(b, start), c)
  {
    Cut(b, start, at - start);
  }

  /** One token, and whether there is another. */
  method OneOfTokens(buf: array<char>, start: nat, delims: set<char>) returns (first: int, more: bool)
    requires start < buf.Length && Ended(buf[..]) && NUL !in delims
    modifies buf
    ensures -1 <= first < buf.Length && Within(old(buf[..]), buf[..], start)
    ensures first >= 0 ==> EndOf(buf[..], first) <= EndOf(old(buf[..]), start)
    ensures var toks := Tokens(CStr(old(buf[..]), start), delims);
      StrAt(buf[..], first) == Nth(toks, 0) && (more <==> |toks| >= 2)
  {
    ghost var b0 := buf[..];
    var n1, second, n2;
    first, n1 := NextToken(buf, start, delims);
    ghost var b1 := buf[..];
    second, n2 := NextToken(buf, n1, delims);
    more := second >= 0;
    TwoOfTokens(delims, b0, start, b1, first, n1, buf[..], second, n2);
  }

  lemma TwoOfTokens(delims: set<char>, b0: seq<char>, start: nat, b1: seq<char>, first: int, n1: nat,
                    b2: seq<char>, second: int, n2: nat)
    requires Ended(b0) && start < |b0| && Delivers(b0, start, delims, b1, first, n1) && Delivers(b1, n1, delims, b2, second, n2)
    ensures Within(b0, b2, start)
    ensures first >= 0 ==> EndOf(b2, first) <= EndOf(b0, start)
    ensures var toks := Tokens(CStr(b0, start), delims);
      StrAt(b2, first) == Nth(toks, 0) && (second >= 0 <==> |toks| >= 2)
  {
    WithinTrans(b0, b1, b2, start, n1);
    if first >= 0 { Keep(b1, b2, n1, first); }
    var t0, o1, t1 := Tokens(CStr(b0, start), delims), OneOrNone(b1, first), Tokens(CStr(b1, n1), delims);
    var o2, t2 := OneOrNone(b2, second), Tokens(CStr(b2, n2), delims);
    assert t0 == o1 + (o2 + t2);
    assert StrAt(b2, first) == Nth(o1, 0);
  }

  /** Cuts a hint off behind its first word; false if there is none. */
  method FirstWord(buf: array<char>, hint: nat) returns (found: bool)
    requires hint < buf.Length && Ended(buf[..])
    modifies buf
    ensures Within(old(buf[..]), buf[..], hint) && EndOf(buf[..], hint) <= EndOf(old(buf[..]), hint)
    ensures var s := CStr(old(buf[..]), hint);
      (found <==> Skip(s, BLANK) < |s|) && (found ==> CStr(buf[..], hint) == Head(s))
  {
    ghost var b := buf[..];
    var word, next := Strtok(buf, hint, BLANK);
    found := word >= 0;
    if found { CutString(b, hint, BLANK); }
  }

  /** The value of a hint, for a key that has been found. */
  method Value(buf: array<char>, at: nat, key: nat, delims: set<char>) returns (op: Option<Op>)
    requires NUL !in delims && at < buf.Length && Ended(buf[..]) && key < buf.Length && EndOf(buf[..], key) <= at
    modifies buf
    ensures Within(old(buf[..]), buf[..], at)
    ensures op == Valued(CStr(old(buf[..]), key), Tokens(CStr(old(buf[..]), at), delims))
  {
    ghost var b := buf[..];
    var val, another := OneOfTokens(buf, at, delims);
    Keep(b, buf[..], at, key);
    if another { return None; }
    var k := Read(buf, key);
    var v := ReadOrNull(buf, val);
    op := Some(Set(Some(k), v));
  }

  /** The key of a hint that has been cut in two. */
  method Key(buf: array<char>, hint: nat, eq: nat, delims: set<char>) returns (key: Option<nat>, more: bool)
    requires hint <= eq && eq + 1 < buf.Length && Ended(buf[..]) && NUL !in delims && EndOf(buf[..], hint) == eq
    modifies buf
    ensures Inside(old(buf[..]), buf[..], hint, eq)
    ensures CStr(buf[..], eq + 1) == CStr(old(buf[..]), eq + 1) && EndOf(buf[..], eq + 1) == EndOf(old(buf[..]), eq + 1)
    ensures key.Some? ==> key.value < buf.Length && EndOf(buf[..], key.value) <= eq
    ensures var keys := Tokens(CStr(old(buf[..]), hint), delims);
      (more <==> |keys| >= 2) && Nth(keys, 0) == if key.None? then None else Some(CStr(buf[..], key.value))
  {
    ghost var b := buf[..];
    var tok;
    tok, more := OneOfTokens(buf, hint, delims);
    KeepBehind(b, buf[..], hint, eq + 1);
    key := if tok < 0 then None else Some(tok);
  }

  /** Key and value of a hint that has been cut in two. */
  method KeyAndValue(buf: array<char>, hint: nat, eq: nat, delims: set<char>) returns (op: Option<Op>)
    requires hint <= eq && eq + 1 < buf.Length && Ended(buf[..]) && NUL !in delims && EndOf(buf[..], hint) == eq
    modifies buf
    ensures Inside(old(buf[..]), buf[..], hint, EndOf(old(buf[..]), eq + 1))
    ensures op == Pair(Tokens(CStr(old(buf[..]), hint), delims), Tokens(CStr(old(buf[..]), eq + 1), delims))
  {
    var key, more := Key(buf, hint, eq, delims);
    if key.None? || more { return None; }
    op := Value(buf, eq + 1, key.value, delims);
  }

  /** One hint that has been cut off behind its first word. */
  method WordStrtok(buf: array<char>, hint: nat, delims: set<char>) returns (op: Option<Op>)
    requires hint < buf.Length && Ended(buf[..]) && NUL !in delims
    modifies buf
    ensures Within(old(buf[..]), buf[..], hint)
    ensures op == SegWord(CStr(old(buf[..]), hint), delims)
  {
    ghost var b, w := buf[..], CStr(buf[..], hint);
    var eq := SplitAt(buf, hint, '=');
    if eq == -1 { return None; }
    ghost var b' := buf[..];
    op := KeyAndValue(buf, hint, eq, delims);
    InsideTrans(b, b', buf[..], hint, EndOf(b, hint), hint, EndOf(b, hint));
  }

  /** One hint, with strtok and strchr. */
  method HintStrtok(buf: array<char>, hint: nat) returns (op: Option<Op>)
    requires hint < buf.Length && Ended(buf[..])
    modifies buf
    ensures Within(old(buf[..]), buf[..], hint)
    ensures op == SegStrtok(CStr(old(buf[..]), hint))
  {
    ghost var b0 := buf[..];
    var found := FirstWord(buf, hint);
    if !found { return None; }
    ghost var b1 := buf[..];
    op := WordStrtok(buf, hint, EQ);
    WithinTrans(b0, b1, buf[..], hint, hint);
  }

  /** A copy of the variable in memory. */
  method Strdup(env: string) returns (buf: array<char>)
    requires NUL !in env
    ensures fresh(buf) && buf.Length == |env| + 1 && Ended(buf[..]) && CStr(buf[..], 0) == env
  {
    buf := new char[|env| + 1](i requires 0 <= i <= |env| => if i < |env| then env[i] else NUL);
    assert forall k :: 0 <= k < |env| ==> buf[..][k] == env[k] && env[k] in env;
    CStrIs(buf[..], 0, env);
  }

  function Emit(op: Option<Op>): seq<Op> {
    if op.Some? then [op.value] else []
  }

  /** One hint is done, `rest` is left; `total` is what there is to do in all. */
  lemma OneMore(seg: string -> Option<Op>, ops: seq<Op>, h: string, rest: seq<string>, total: seq<Op>)
    requires ops + OpsOf(seg, [h] + rest) == total
    ensures (ops + Emit(seg(h))) + OpsOf(seg, rest) == total
  {
  }

  /** One round of the loop below: the hint at `hint`, and on to the next. */
  method NextStrtokR(buf: array<char>, hint: nat, saved: nat, ghost left: seq<string>)
    returns (op: Option<Op>, hint': int, saved': nat, ghost left': seq<string>)
    requires Ended(buf[..]) && hint < buf.Length && saved < buf.Length && EndOf(buf[..], hint) <= saved
    requires left == Tokens(CStr(buf[..], saved), SEMI)
    modifies buf
    ensures Ended(buf[..]) && -1 <= hint' < buf.Length && saved' < buf.Length
    ensures op == SegStrtokR(CStr(old(buf[..]), hint))
    ensures left' == Tokens(CStr(buf[..], saved'), SEMI)
    ensures hint' == -1 ==> left == []
    ensures hint' != -1 ==> left == [CStr(buf[..], hint')] + left'
    ensures hint' != -1 ==> EndOf(buf[..], hint') <= saved' && |CStr(buf[..], saved')| < |CStr(old(buf[..]), saved)|
  {
    ghost var b := buf[..];
    op := HintStrtokR(buf, hint);
    KeepBehind(b, buf[..], hint, saved);
    hint', saved' := NextToken(buf, saved, SEMI);
    left' := Tokens(CStr(buf[..], saved'), SEMI);
  }

  /** The variant with strtok_r. */
  method ParseStrtokR(env: string) returns (ops: seq<Op>)
    requires NUL !in env
    ensures ops == OpsOf(SegStrtokR, Segments(env))
  {
    ghost var total := OpsOf(SegStrtokR, Tokens(env, SEMI));
    ops := [];
    var buf := Strdup(env);
    var hint, saved := NextToken(buf, 0, SEMI);
    ghost var left := Tokens(CStr(buf[..], saved), SEMI);
    while hint != -1
      invariant Ended(buf[..]) && -1 <= hint < buf.Length && saved < buf.Length
      invariant hint != -1 ==> EndOf(buf[..], hint) <= saved && left == Tokens(CStr(buf[..], saved), SEMI)
      invariant if hint == -1 then ops == total else ops + OpsOf(SegStrtokR, [CStr(buf[..], hint)] + left) == total
      decreases if hint == -1 then 0 else 1 + |CStr(buf[..], saved)|
    {
      OneMore(SegStrtokR, ops, CStr(buf[..], hint), left, total);
      var op;
      op, hint, saved, left := NextStrtokR(buf, hint, saved, left);
      ops := ops + Emit(op);
    }
    EmptyHints();
    TokensOrSegments(SegStrtokR, env);
  }

  /** One round of the loop below: the hint that starts at `hint`, and where the next one starts. */
  method NextStrtok(buf: array<char>, hint: nat) returns (op: Option<Op>, next: nat, ghost h: string, ghost rest: seq<string>)
    requires Ended(buf[..]) && hint < buf.Length
    modifies buf
    ensures Ended(buf[..]) && next < buf.Length && (buf[next] != NUL ==> hint < next)
    ensures op == SegStrtok(h) && Segments(CStr(old(buf[..]), hint)) == [h] + rest
    ensures if buf[next] == NUL then rest == [] || rest == [""] else rest == Segments(CStr(buf[..], next))
  {
    ghost var s := CStr(buf[..], hint);
    var deli := SplitAt(buf, hint, ';');
    if deli != -1 {
      h, rest := UpTo(s, ';'), Segments(Beyond(s, ';'));
      next := deli + 1;
    } else {
      h, rest := s, [];
      next := buf.Length - 1;
    }
    op := HintAt(buf, hint, next, h);
  }

  /** A hint, with the next one's text left as it is. */
  method HintAt(buf: array<char>, hint: nat, next: nat, ghost h: string) returns (op: Option<Op>)
    requires Ended(buf[..]) && hint < buf.Length && EndOf(buf[..], hint) <= next < buf.Length && CStr(buf[..], hint) == h
    modifies buf
    ensures Ended(buf[..]) && op == SegStrtok(h) && CStr(buf[..], next) == old(CStr(buf[..], next))
    ensures buf[next] == NUL <==> CStr(buf[..], next) == ""
  {
    ghost var b := buf[..];
    op := HintStrtok(buf, hint);
    KeepBehind(b, buf[..], hint, next);
    NextByte(buf[..], next, next);
  }

  /** The variant with strtok and strchr. */
  method ParseStrtok(env: string) returns (ops: seq<Op>)
    requires NUL !in env
    ensures ops == OpsOf(SegStrtok, Segments(env))
  {
    ghost var total := OpsOf(SegStrtok, Segments(env));
    ops := [];
    var buf := Strdup(env);
    var next, more := 0, true;
    ghost var left := Segments(env);
    while more
      invariant Ended(buf[..]) && next < buf.Length
      invariant if more then left == Segments(CStr(buf[..], next)) else left == [] || left == [""]
      invariant ops + OpsOf(SegStrtok, left) == total
      decreases more, buf.Length - next
    {
      var op;
      ghost var h;
      op, next, h, left := NextStrtok(buf, next);
      OneMore(SegStrtok, ops, h, left, total);
      ops := ops + Emit(op);
      more := buf[next] != NUL;
    }
    EmptyHints();
  }

  /* ---------------- hints that are well formed ---------------- */

  datatype Hint = Hint(key: string, val: string)

  predicate TextOk(s: string) {
    s != "" && forall i :: 0 <= i < |s| ==> s[i] !in EQ && s[i] != ';' && s[i] != NUL
  }

  predicate HintsOk(hs: seq<Hint>) {
    forall i :: 0 <= i < |hs| ==> TextOk(hs[i].key) && TextOk(hs[i].val)
  }

  function PrintHint(h: Hint): string {
    h.key + ['='] + h.val
  }

  /** The variable as a user writes it. */
  function Print(hs: seq<Hint>): string {
    if hs == [] then ""
    else if |hs| == 1 then PrintHint(hs[0])
    else PrintHint(hs[0]) + [';'] + Print(hs[1..])
  }

  function Calls(hs: seq<Hint>): seq<Op> {
    if hs == [] then [] else [Set(Some(hs[0].key), Some(hs[0].val))] + Calls(hs[1..])
  }

  lemma TextFacts(s: string)
    requires TextOk(s)
    ensures NoneOf(s, EQ) && NoneOf(s, BLANK) && NoneOf(s, {'='}) && NoneOf(s, SEMI)
    ensures Tokens(s, EQ) == [s]
  {
    assert s == "" + s + "";
    TokenIs(s, EQ, "", s, "");
    NoTokens("", EQ);
  }

  lemma SplitFirst(x: string, c: char, y: string)
    requires NoneOf(x, {c})
    ensures UpTo(x + [c] + y, c) == x && Beyond(x + [c] + y, c) == y && c in x + [c] + y
  {
    var s := x + [c] + y;
    assert s[|x|] == c;
    assert forall i :: 0 <= i < |x| ==> s[i] == x[i];
    assert Span(s, {c}) == |x|;
  }

  lemma NoneOfJoin(x: string, c: char, y: string, delims: set<char>)
    requires NoneOf(x, delims) && NoneOf(y, delims) && c !in delims
    ensures NoneOf(x + [c] + y, delims)
  {
  }

  lemma HintTokens(h: Hint)
    requires TextOk(h.key) && TextOk(h.val)
    ensures Tokens(PrintHint(h), EQ) == [h.key, h.val]
    ensures UpTo(PrintHint(h), '=') == h.key && Beyond(PrintHint(h), '=') == h.val && '=' in PrintHint(h)
    ensures NoneOf(PrintHint(h), SEMI) && NoneOf(PrintHint(h), BLANK)
  {
    TextFacts(h.key);
    TextFacts(h.val);
    TokensSplit(h.key, '=', h.val, EQ);
    SplitFirst(h.key, '=', h.val);
    NoneOfJoin(h.key, '=', h.val, SEMI);
    NoneOfJoin(h.key, '=', h.val, BLANK);
  }

  lemma WholeHead(s: string)
    requires s != "" && NoneOf(s, BLANK)
    ensures Skip(s, BLANK) < |s| && Head(s) == s
  {
  }

  lemma ReadsWord(s: string, k: string, v: string)
    requires Tokens(s, EQ) == [k, v] && Tokens(k, EQ) == [k] && Tokens(v, EQ) == [v]
    requires '=' in s && UpTo(s, '=') == k && Beyond(s, '=') == v && Skip(s, BLANK) < |s| && Head(s) == s
    ensures SegStrtokR(s) == SegStrtok(s) == Some(Set(Some(k), Some(v)))
  {
  }

  /** Both variants read a well-formed hint as it is meant. */
  lemma BothRead(h: Hint)
    requires TextOk(h.key) && TextOk(h.val)
    ensures SegStrtokR(PrintHint(h)) == SegStrtok(PrintHint(h)) == Some(Set(Some(h.key), Some(h.val)))
  {
    HintTokens(h);
    WholeHead(PrintHint(h));
    TextFacts(h.key);
    TextFacts(h.val);
    ReadsWord(PrintHint(h), h.key, h.val);
  }

  lemma FirstOfPrint(h: Hint, rest: string)
    requires TextOk(h.key) && TextOk(h.val)
    ensures Segments(PrintHint(h) + [';'] + rest) == [PrintHint(h)] + Segments(rest)
  {
    HintTokens(h);
    SplitFirst(PrintHint(h), ';', rest);
  }

  /** A way of reading hints that reads well-formed ones as they are meant, and makes nothing of
      an empty one. */
  ghost predicate Reads(seg: string -> Option<Op>) {
    && seg("") == None
    && forall h: Hint :: TextOk(h.key) && TextOk(h.val) ==> seg(PrintHint(h)) == Some(Set(Some(h.key), Some(h.val)))
  }

  lemma {:induction false} PrintAndRead(seg: string -> Option<Op>, hs: seq<Hint>)
    requires Reads(seg) && HintsOk(hs)
    ensures OpsOf(seg, Segments(Print(hs))) == Calls(hs)
  {
    if |hs| <= 1 {
      OpsOfOne(seg, Print(hs));
      if |hs| == 1 { HintTokens(hs[0]); }
    } else {
      PrintAndRead(seg, hs[1..]);
      FirstOfPrint(hs[0], Print(hs[1..]));
      OpsAppend(seg, [PrintHint(hs[0])], Segments(Print(hs[1..])));
      OpsOfOne(seg, PrintHint(hs[0]));
    }
  }

  /** Printing a list of hints and parsing it, in either way, yields one call per hint, in order. */
  lemma RoundTrip(hs: seq<Hint>)
    requires HintsOk(hs)
    ensures OpsOf(SegStrtokR, Segments(Print(hs))) == OpsOf(SegStrtok, Segments(Print(hs))) == Calls(hs)
  {
    EmptyHints();
    forall h: Hint | TextOk(h.key) && TextOk(h.val)
      ensures SegStrtokR(PrintHint(h)) == SegStrtok(PrintHint(h)) == Some(Set(Some(h.key), Some(h.val)))
    {
      BothRead(h);
    }
    PrintAndRead(SegStrtokR, hs);
    PrintAndRead(SegStrtok, hs);
  }

  lemma OpsOfOne(seg: string -> Option<Op>, s: string)
    ensures OpsOf(seg, [s]) == Emit(seg(s))
  {
  }

  /* ---------------- the info object ---------------- */

  /** MPI_INFO_NULL, or the settings of an info object. */
  type Info = Option<map<string, string>>

  function Settings(info: Info): map<string, string> {
    if info.Some? then info.value else map[]
  }

  /** The object after MPI_Info_set, created if there was none. MPI refuses a NULL key or value;
      the error is ignored. */
  function SetInfo(info: Info, op: Op): Info {
    Some(if op.key.Some? && op.val.Some? then Settings(info)[op.key.value := op.val.value] else Settings(info))
  }

  function Combined(user: Info, ops: seq<Op>): Info
    decreases |ops|
  {
    if ops == [] then user else Combined(SetInfo(user, ops[0]), ops[1..])
  }

  /** The last value that a list gives a key. */
  function LastVal(hs: seq<Hint>, key: string): Option<string> {
    if hs == [] then None
    else if LastVal(hs[1..], key).Some? then LastVal(hs[1..], key)
    else if hs[0].key == key then Some(hs[0].val) else None
  }

  /** The last value that some calls give a key. */
  function LastSet(ops: seq<Op>, key: string): Option<string> {
    if ops == [] then None
    else if LastSet(ops[1..], key).Some? then LastSet(ops[1..], key)
    else if ops[0].key == Some(key) then ops[0].val else None
  }

  lemma {:induction false} OverridesFrom(user: Info, ops: seq<Op>, key: string)
    decreases |ops|
    ensures var m := Settings(Combined(user, ops));
      (key in m <==> LastSet(ops, key).Some? || key in Settings(user)) &&
      (key in m ==> m[key] == if LastSet(ops, key).Some? then LastSet(ops, key).value else Settings(user)[key])
    ensures Combined(user, ops).Some? <==> user.Some? || ops != []
  {
    if ops != [] { OverridesFrom(SetInfo(user, ops[0]), ops[1..], key); }
  }

  lemma {:induction false} LastOfCalls(hs: seq<Hint>, key: string)
    ensures LastSet(Calls(hs), key) == LastVal(hs, key)
  {
    if hs != [] {
      assert Calls(hs)[1..] == Calls(hs[1..]);
      LastOfCalls(hs[1..], key);
    }
  }

  /** Two lists of calls that lead to the same object, whatever the user's was. */
  ghost predicate SameEffect(a: seq<Op>, b: seq<Op>) {
    forall user: Info :: Combined(user, a) == Combined(user, b)
  }

  ghost predicate SameLasts(a: seq<Op>, b: seq<Op>) {
    forall key: string :: LastSet(a, key) == LastSet(b, key)
  }

  /** The calls agree in whether there is any, and in the last value of each key. */
  ghost predicate SameLast(a: seq<Op>, b: seq<Op>) {
    (a == [] <==> b == []) && SameLasts(a, b)
  }

  /** And only those. */
  lemma SameEffectIff(a: seq<Op>, b: seq<Op>)
    ensures SameEffect(a, b) <==> SameLast(a, b)
  {
    if SameEffect(a, b) {
      assert Combined(None, a) == Combined(None, b);
      forall key: string ensures LastSet(a, key) == LastSet(b, key) {
        OverridesFrom(None, a, key);
        OverridesFrom(None, b, key);
      }
      OverridesFrom(None, a, "");
      OverridesFrom(None, b, "");
    }
    if SameLast(a, b) {
      forall user: Info ensures Combined(user, a) == Combined(user, b) { SameLastSameInfo(user, a, b); }
    }
  }

  lemma SameLastSameInfo(user: Info, a: seq<Op>, b: seq<Op>)
    requires SameLast(a, b)
    ensures Combined(user, a) == Combined(user, b)
  {
    OverridesFrom(user, a, "");
    OverridesFrom(user, b, "");
    var m, m' := Settings(Combined(user, a)), Settings(Combined(user, b));
    forall key ensures SettingFrom(m, key) == SettingFrom(m', key) {
      OverridesFrom(user, a, key);
      OverridesFrom(user, b, key);
    }
    SameSettings(m, m');
  }

  function SettingFrom(m: map<string, string>, key: string): Option<string> {
    if key in m then Some(m[key]) else None
  }

  lemma SameSettings(m: map<string, string>, m': map<string, string>)
    requires forall key :: SettingFrom(m, key) == SettingFrom(m', key)
    ensures m == m'
  {
    forall key ensures key in m <==> key in m' { assert SettingFrom(m, key) == SettingFrom(m', key); }
    forall key | key in m ensures m[key] == m'[key] { assert SettingFrom(m, key) == SettingFrom(m', key); }
  }

  lemma {:induction false} SameCalls(hints: seq<string>)
    requires forall i :: 0 <= i < |hints| ==> Alike(hints[i])
    ensures OpsOf(SegStrtokR, hints) == OpsOf(SegStrtok, hints)
  {
    if hints != [] {
      AlikeIff(hints[0]);
      SameCalls(hints[1..]);
    }
  }

  /** The object that each variant makes of the whole variable: the same for every user's object if
      and only if both variants or neither make a call and they agree in the last value of each key
      that takes effect; and that is so if every hint is read alike. */
  lemma VariantsAgreeIff(env: string)
    ensures var a, b := OpsOf(SegStrtokR, Segments(env)), OpsOf(SegStrtok, Segments(env));
      && (SameEffect(a, b) <==> SameLast(a, b))
      && ((forall i :: 0 <= i < |Segments(env)| ==> Alike(Segments(env)[i])) ==> a == b && SameEffect(a, b))
  {
    SameEffectIff(OpsOf(SegStrtokR, Segments(env)), OpsOf(SegStrtok, Segments(env)));
    if forall i :: 0 <= i < |Segments(env)| ==> Alike(Segments(env)[i]) { SameCalls(Segments(env)); }
  }

  /* ---------------- the same, read off the text ---------------- */

  /** A variant reads a key and a value in a hint. */
  type Reading = (string, string, string) -> bool

  predicate ReadsStrtokR(s: string, key: string, val: string) {
    '=' in s && Tokens(s, EQ) == [key, val]
  }

  predicate ReadsStrtok(s: string, key: string, val: string) {
    '=' in Head(s) && Tokens(UpTo(Head(s), '='), EQ) == [key] && Tokens(Beyond(Head(s), '='), EQ) == [val]
  }

  /** It makes a call for a hint, though perhaps with a missing key or value. */
  predicate TakesStrtokR(s: string) {
    '=' in s && |Tokens(s, EQ)| <= 2
  }

  predicate TakesStrtok(s: string) {
    '=' in Head(s) && |Tokens(UpTo(Head(s), '='), EQ)| == 1 && |Tokens(Beyond(Head(s), '='), EQ)| <= 1
  }

  lemma ReadingStrtokR(s: string, key: string, val: string)
    ensures SegStrtokR(s) == Some(Set(Some(key), Some(val))) <==> ReadsStrtokR(s, key, val)
    ensures SegStrtokR(s).Some? <==> TakesStrtokR(s)
  {
  }

  lemma PairIs(keys: seq<string>, vals: seq<string>, key: string, val: string)
    ensures Pair(keys, vals) == Some(Set(Some(key), Some(val))) <==> keys == [key] && vals == [val]
    ensures Pair(keys, vals).Some? <==> |keys| == 1 && |vals| <= 1
  {
  }

  lemma SegIsPair(s: string)
    ensures SegStrtok(s) == if '=' in Head(s) then Pair(Tokens(UpTo(Head(s), '='), EQ), Tokens(Beyond(Head(s), '='), EQ)) else None
  {
    WordBeforeEquals(s);
    assert '=' in Head(s) ==> '=' in s;
  }

  lemma ReadingStrtok(s: string, key: string, val: string)
    ensures SegStrtok(s) == Some(Set(Some(key), Some(val))) <==> ReadsStrtok(s, key, val)
    ensures SegStrtok(s).Some? <==> TakesStrtok(s)
  {
    SegIsPair(s);
    PairIs(Tokens(UpTo(Head(s), '='), EQ), Tokens(Beyond(Head(s), '='), EQ), key, val);
  }

  /** The last hint in which the key is read has this value. */
  ghost predicate LastRead(gets: Reading, hints: seq<string>, key: string, val: string) {
    exists i :: 0 <= i < |hints| && gets(hints[i], key, val) && NotBehind(gets, hints, key, i)
  }

  ghost predicate NotBehind(gets: Reading, hints: seq<string>, key: string, i: int) {
    forall j, v :: i < j < |hints| && 0 <= j ==> !gets(hints[j], key, v)
  }

  ghost predicate ReadsFor(seg: string -> Option<Op>, gets: Reading) {
    forall s, key, val :: seg(s) == Some(Set(Some(key), Some(val))) <==> gets(s, key, val)
  }

  lemma {:induction false} LastSetIsRead(seg: string -> Option<Op>, gets: Reading, hints: seq<string>, key: string, val: string)
    requires ReadsFor(seg, gets)
    ensures LastSet(OpsOf(seg, hints), key) == Some(val) <==> LastRead(gets, hints, key, val)
    ensures LastSet(OpsOf(seg, hints), key) == None <==> NotBehind(gets, hints, key, -1)
  {
    if hints != [] {
      var rest := hints[1..];
      LastSetIsRead(seg, gets, rest, key, val);
      LastOfMore(Emit(seg(hints[0])), OpsOf(seg, rest), key);
      OneHintMore(gets, hints, key, val);
      if LastSet(OpsOf(seg, rest), key).Some? {
        LastSetIsRead(seg, gets, rest, key, LastSet(OpsOf(seg, rest), key).value);
        SomethingRead(gets, rest, key, LastSet(OpsOf(seg, rest), key).value);
      }
      forall v ensures gets(hints[0], key, v) <==> seg(hints[0]) == Some(Set(Some(key), Some(v))) {}
    }
  }

  lemma LastOfMore(first: seq<Op>, rest: seq<Op>, key: string)
    requires |first| <= 1
    ensures LastSet(first + rest, key) == if LastSet(rest, key).Some? then LastSet(rest, key) else LastSet(first, key)
  {
    if first == [] {
      assert first + rest == rest;
    } else {
      assert (first + rest)[1..] == rest && first[1..] == [];
    }
  }

  lemma OneHintMore(gets: Reading, hints: seq<string>, key: string, val: string)
    requires hints != []
    ensures LastRead(gets, hints, key, val) <==>
      LastRead(gets, hints[1..], key, val) || (gets(hints[0], key, val) && NotBehind(gets, hints[1..], key, -1))
    ensures NotBehind(gets, hints, key, -1) <==> NotBehind(gets, hints[1..], key, -1) && forall v :: !gets(hints[0], key, v)
  {
    var rest := hints[1..];
    forall i: nat | i < |rest| ensures NotBehind(gets, hints, key, i + 1) <==> NotBehind(gets, rest, key, i) {
      Behind(gets, hints, key, i);
    }
    Behind(gets, hints, key, -1);
    if LastRead(gets, rest, key, val) {
      var i :| 0 <= i < |rest| && gets(rest[i], key, val) && NotBehind(gets, rest, key, i);
      assert gets(hints[i + 1], key, val) && NotBehind(gets, hints, key, i + 1);
    }
    if LastRead(gets, hints, key, val) {
      var i :| 0 <= i < |hints| && gets(hints[i], key, val) && NotBehind(gets, hints, key, i);
      if i > 0 { assert gets(rest[i - 1], key, val) && NotBehind(gets, rest, key, i - 1); }
    }
  }

  lemma Behind(gets: Reading, hints: seq<string>, key: string, i: int)
    requires hints != [] && i >= -1
    ensures NotBehind(gets, hints, key, i + 1) <==> NotBehind(gets, hints[1..], key, i)
    ensures i == -1 ==> (NotBehind(gets, hints, key, -1) <==> NotBehind(gets, hints, key, 0) && forall v :: !gets(hints[0], key, v))
  {
    var rest := hints[1..];
    if NotBehind(gets, hints, key, i + 1) {
      forall j, v | i < j < |rest| && 0 <= j ensures !gets(rest[j], key, v) { assert rest[j] == hints[j + 1]; }
    }
    if NotBehind(gets, rest, key, i) {
      forall j, v | i + 1 < j < |hints| && 0 <= j ensures !gets(hints[j], key, v) { assert hints[j] == rest[j - 1]; }
    }
  }

  lemma SomethingRead(gets: Reading, hints: seq<string>, key: string, val: string)
    requires LastRead(gets, hints, key, val)
    ensures !NotBehind(gets, hints, key, -1)
  {
  }

  /** Some variant reads the key in a hint. */
  ghost predicate Touches(s: string, key: string) {
    exists val :: ReadsStrtokR(s, key, val) || ReadsStrtok(s, key, val)
  }

  /** A hint that is not treated alike, and no later one that is has the key. */
  ghost predicate LeftOpen(hints: seq<string>, i: int, key: string) {
    && 0 <= i < |hints| && !Alike(hints[i]) && Touches(hints[i], key)
    && forall j :: i < j < |hints| && Alike(hints[j]) ==> !Touches(hints[j], key)
  }

  ghost predicate SameLastRead(hints: seq<string>, key: string) {
    forall val :: LastRead(ReadsStrtokR, hints, key, val) <==> LastRead(ReadsStrtok, hints, key, val)
  }

  lemma AlikeReads(s: string)
    requires Alike(s)
    ensures forall key, val :: ReadsStrtokR(s, key, val) <==> ReadsStrtok(s, key, val)
  {
    AlikeIff(s);
    forall key, val ensures ReadsStrtokR(s, key, val) <==> ReadsStrtok(s, key, val) {
      ReadingStrtokR(s, key, val);
      ReadingStrtok(s, key, val);
    }
  }

  /** The last hint in which some variant reads the key, if there is one. */
  lemma {:induction false} LastTouched(hints: seq<string>, key: string, n: nat) returns (l: int)
    requires n <= |hints| && forall j :: n <= j < |hints| ==> !Touches(hints[j], key)
    ensures -1 <= l < |hints| && (l >= 0 ==> Touches(hints[l], key)) && forall j :: l < j < |hints| && 0 <= j ==> !Touches(hints[j], key)
  {
    if n == 0 {
      l := -1;
    } else if Touches(hints[n - 1], key) {
      l := n - 1;
    } else {
      l := LastTouched(hints, key, n - 1);
    }
  }

  lemma ReadTouches(s: string, key: string, val: string)
    ensures ReadsStrtokR(s, key, val) || ReadsStrtok(s, key, val) ==> Touches(s, key)
  {
  }

  lemma LastAlikeIsSame(hints: seq<string>, key: string, l: int)
    requires -1 <= l < |hints| && (l >= 0 ==> Alike(hints[l]) && Touches(hints[l], key))
    requires forall j :: l < j < |hints| && 0 <= j ==> !Touches(hints[j], key)
    ensures SameLastRead(hints, key)
  {
    if l >= 0 { AlikeReads(hints[l]); }
    NothingBehind(hints, key, l);
    forall val ensures LastRead(ReadsStrtokR, hints, key, val) <==> LastRead(ReadsStrtok, hints, key, val) {
      LastReadAt(ReadsStrtokR, hints, key, val, l);
      LastReadAt(ReadsStrtok, hints, key, val, l);
    }
  }

  lemma NothingBehind(hints: seq<string>, key: string, l: int)
    requires -1 <= l < |hints| && forall j :: l < j < |hints| && 0 <= j ==> !Touches(hints[j], key)
    ensures NotBehind(ReadsStrtokR, hints, key, l) && NotBehind(ReadsStrtok, hints, key, l)
  {
    forall j, v | l < j < |hints| && 0 <= j ensures !ReadsStrtokR(hints[j], key, v) && !ReadsStrtok(hints[j], key, v) {
      ReadTouches(hints[j], key, v);
    }
  }

  lemma LastReadAt(gets: Reading, hints: seq<string>, key: string, val: string, l: int)
    requires -1 <= l < |hints| && (l >= 0 ==> exists v :: gets(hints[l], key, v)) && NotBehind(gets, hints, key, l)
    ensures LastRead(gets, hints, key, val) <==> l >= 0 && gets(hints[l], key, val)
  {
  }

  /** One object from both variants, in terms of the text: a call is made by both or by neither, and
      for every hint that they do not treat alike and that no later hint treated alike makes up for,
      the last values of its key are the same. */
  lemma VariantsAgreeOnText(env: string)
    ensures var hs := Segments(env);
      SameEffect(OpsOf(SegStrtokR, hs), OpsOf(SegStrtok, hs)) <==> TakenByBothOrNone(hs) && OpenAgree(hs)
  {
    var hs := Segments(env);
    SameEffectIff(OpsOf(SegStrtokR, hs), OpsOf(SegStrtok, hs));
    AnyTaken(hs);
    LastValuesIff(hs);
    OpenAgreeIff(hs);
  }

  ghost predicate TakenByBothOrNone(hints: seq<string>) {
    (exists i :: 0 <= i < |hints| && TakesStrtokR(hints[i])) <==> (exists i :: 0 <= i < |hints| && TakesStrtok(hints[i]))
  }

  ghost predicate OpenAgree(hints: seq<string>) {
    forall i, key :: LeftOpen(hints, i, key) ==> SameLastRead(hints, key)
  }

  lemma OpenAgreeIff(hints: seq<string>)
    ensures OpenAgree(hints) <==> forall key: string :: SameLastRead(hints, key)
  {
    if OpenAgree(hints) {
      forall key: string ensures SameLastRead(hints, key) { OpenDecides(hints, key); }
    }
  }

  lemma OpenDecides(hints: seq<string>, key: string)
    requires forall i :: LeftOpen(hints, i, key) ==> SameLastRead(hints, key)
    ensures SameLastRead(hints, key)
  {
    var l := LastTouched(hints, key, |hints|);
    if l >= 0 && !Alike(hints[l]) {
      assert LeftOpen(hints, l, key);
    } else {
      LastAlikeIsSame(hints, key, l);
    }
  }

  lemma {:induction false} OpsTaken(seg: string -> Option<Op>, hints: seq<string>)
    ensures OpsOf(seg, hints) != [] <==> exists i :: 0 <= i < |hints| && seg(hints[i]).Some?
  {
    if hints != [] {
      OpsTaken(seg, hints[1..]);
      assert forall i :: 1 <= i < |hints| ==> hints[i] == hints[1..][i - 1];
      if OpsOf(seg, hints[1..]) != [] {
        var i :| 0 <= i < |hints[1..]| && seg(hints[1..][i]).Some?;
        assert seg(hints[i + 1]).Some?;
      }
    }
  }

  lemma AnyTaken(hints: seq<string>)
    ensures OpsOf(SegStrtokR, hints) != [] <==> exists i :: 0 <= i < |hints| && TakesStrtokR(hints[i])
    ensures OpsOf(SegStrtok, hints) != [] <==> exists i :: 0 <= i < |hints| && TakesStrtok(hints[i])
  {
    OpsTaken(SegStrtokR, hints);
    OpsTaken(SegStrtok, hints);
    forall i | 0 <= i < |hints|
      ensures SegStrtokR(hints[i]).Some? <==> TakesStrtokR(hints[i])
      ensures SegStrtok(hints[i]).Some? <==> TakesStrtok(hints[i])
    {
      ReadingStrtokR(hints[i], "", "");
      ReadingStrtok(hints[i], "", "");
    }
  }

  lemma LastValuesIff(hints: seq<string>)
    ensures SameLasts(OpsOf(SegStrtokR, hints), OpsOf(SegStrtok, hints)) <==> forall key: string :: SameLastRead(hints, key)
  {
    var a, b := OpsOf(SegStrtokR, hints), OpsOf(SegStrtok, hints);
    if SameLasts(a, b) {
      forall key: string ensures SameLastRead(hints, key) {
        assert LastSet(a, key) == LastSet(b, key);
        LastValueIff(hints, key);
      }
    }
    if forall key: string :: SameLastRead(hints, key) {
      forall key: string ensures LastSet(a, key) == LastSet(b, key) {
        assert SameLastRead(hints, key);
        LastValueIff(hints, key);
      }
    }
  }

  lemma LastValueIff(hints: seq<string>, key: string)
    ensures LastSet(OpsOf(SegStrtokR, hints), key) == LastSet(OpsOf(SegStrtok, hints), key) <==> SameLastRead(hints, key)
  {
    ReadingsAre();
    var x, y := LastSet(OpsOf(SegStrtokR, hints), key), LastSet(OpsOf(SegStrtok, hints), key);
    forall val
      ensures (x == Some(val) <==> LastRead(ReadsStrtokR, hints, key, val)) && (y == Some(val) <==> LastRead(ReadsStrtok, hints, key, val))
    {
      LastSetIsRead(SegStrtokR, ReadsStrtokR, hints, key, val);
      LastSetIsRead(SegStrtok, ReadsStrtok, hints, key, val);
    }
    if x.Some? && SameLastRead(hints, key) { assert LastRead(ReadsStrtokR, hints, key, x.value); }
    if y.Some? && SameLastRead(hints, key) { assert LastRead(ReadsStrtok, hints, key, y.value); }
  }

  lemma ReadingsAre()
    ensures ReadsFor(SegStrtokR, ReadsStrtokR) && ReadsFor(SegStrtok, ReadsStrtok)
  {
    forall s, key, val
      ensures SegStrtokR(s) == Some(Set(Some(key), Some(val))) <==> ReadsStrtokR(s, key, val)
      ensures SegStrtok(s) == Some(Set(Some(key), Some(val))) <==> ReadsStrtok(s, key, val)
    {
      ReadingStrtokR(s, key, val);
      ReadingStrtok(s, key, val);
    }
  }

  /** With well-formed hints in the variable, in either variant, the settings are the user's
      overridden by the hints, the last of a key counting; without any, the object is the user's. */
  lemma EnvironmentOverrides(user: Info, hs: seq<Hint>, seg: string -> Option<Op>, key: string)
    requires HintsOk(hs) && (seg == SegStrtokR || seg == SegStrtok)
    ensures var info := Combined(user, OpsOf(seg, Segments(Print(hs))));
      && (hs == [] ==> info == user)
      && (key in Settings(info) <==> LastVal(hs, key).Some? || key in Settings(user))
      && (key in Settings(info) ==>
            Settings(info)[key] == if LastVal(hs, key).Some? then LastVal(hs, key).value else Settings(user)[key])
  {
    RoundTrip(hs);
    OverridesFrom(user, Calls(hs), key);
    LastOfCalls(hs, key);
  }

  lemma HeadBeforeBlank(x: string, d: char, y: string)
    requires x != "" && NoneOf(x, BLANK) && d in BLANK
    ensures Head(x + [d] + y) == x
  {
    var s, post := x + [d] + y, [d] + y;
    assert s == "" + x + post;
    TokenIs(s, BLANK, "", x, post);
  }

  lemma TokensAroundBlank(key: string, d: char, val: string)
    requires TextOk(key) && TextOk(val) && d in BLANK
    ensures Tokens(key + [d] + (['='] + val), EQ) == [key, val]
  {
    TextFacts(key);
    TextFacts(val);
    TokensSplit(key, d, ['='] + val, EQ);
    LeadingDelims(['='], val, EQ);
  }

  /** A blank before the '=' is enough for the variants to differ: one takes the hint, the other
      does not. */
  lemma BlankBeforeEquals(key: string, d: char, val: string)
    requires TextOk(key) && TextOk(val) && d in BLANK
    ensures SegStrtokR(key + [d] + (['='] + val)) == Some(Set(Some(key), Some(val)))
    ensures SegStrtok(key + [d] + (['='] + val)) == None
  {
    var s := key + [d] + (['='] + val);
    TextFacts(key);
    TokensAroundBlank(key, d, val);
    HeadBeforeBlank(key, d, ['='] + val);
    assert s[|key| + 1] == '=';
    NotIn(key, '=');
  }

  /** Different calls can have one effect: a hint that only one variant takes, repeated in a form
      that both take. Without the repetition there is none. */
  lemma RepeatedHint(key: string, d: char, val: string)
    requires TextOk(key) && TextOk(val) && d in BLANK
    ensures var lost, plain := key + [d] + (['='] + val), PrintHint(Hint(key, val));
      && OpsOf(SegStrtokR, [lost, plain]) != OpsOf(SegStrtok, [lost, plain])
      && SameEffect(OpsOf(SegStrtokR, [lost, plain]), OpsOf(SegStrtok, [lost, plain]))
      && !SameEffect(OpsOf(SegStrtokR, [lost]), OpsOf(SegStrtok, [lost]))
  {
    var lost, plain := key + [d] + (['='] + val), PrintHint(Hint(key, val));
    BlankBeforeEquals(key, d, val);
    BothRead(Hint(key, val));
    LostAndRepeated(SegStrtokR, SegStrtok, lost, plain, Set(Some(key), Some(val)));
  }

  lemma LostAndRepeated(taker: string -> Option<Op>, loser: string -> Option<Op>, s: string, t: string, op: Op)
    requires op.key.Some? && op.val.Some? && taker(s) == taker(t) == loser(t) == Some(op) && loser(s) == None
    ensures OpsOf(taker, [s, t]) != OpsOf(loser, [s, t])
    ensures SameEffect(OpsOf(taker, [s, t]), OpsOf(loser, [s, t])) && !SameEffect(OpsOf(taker, [s]), OpsOf(loser, [s]))
  {
    TwoHints(taker, s, t);
    TwoHints(loser, s, t);
    OpsOfOne(taker, s);
    OpsOfOne(loser, s);
    OnceOrTwice(op);
    assert Emit(Some(op)) + Emit(Some(op)) == [op, op] && Emit(None) + Emit(Some(op)) == [op];
  }

  lemma OnceOrTwice(op: Op)
    requires op.key.Some? && op.val.Some?
    ensures [op, op] != [op] && SameEffect([op, op], [op]) && !SameEffect([op], [])
  {
    assert [op, op][1..] == [op] && [op][1..] == [];
    SameEffectIff([op, op], [op]);
    SameEffectIff([op], []);
    assert |[op, op]| != |[op]|;
  }

  lemma TwoHints(seg: string -> Option<Op>, s: string, t: string)
    ensures OpsOf(seg, [s, t]) == Emit(seg(s)) + Emit(seg(t))
  {
    assert [s, t][1..] == [t];
    OpsOfOne(seg, t);
  }

  lemma NotIn(s: string, c: char)
    requires NoneOf(s, {c})
    ensures c !in s
  {
  }
}
