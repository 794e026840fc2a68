/** lib/string.c: strtok and strstr, with the exits of their assembly loops. A pointer is an index into
    a buffer, and NULL is -1. */
module Strings {

  const NUL := '\0'
  const NULL := -1

  type Buffer = seq<char>

  /** The index of the NUL that ends the string at p. */
  function End(b: Buffer, p: nat): (e: nat)
    requires p <= |b|
    ensures p <= e <= |b| && (forall i :: p <= i < e ==> b[i] != NUL) && (e < |b| ==> b[e] == NUL)
    decreases |b| - p
  {
    if p < |b| && b[p] != NUL then End(b, p + 1) else p
  }

  /** There is a string at p. */
  predicate Terminated(b: Buffer, p: nat) {
    p <= |b| && End(b, p) < |b|
  }

  /** The string at p. */
  function Text(b: Buffer, p: nat): string
    requires p <= |b|
  {
    b[p..End(b, p)]
  }

  lemma EndIs(b: Buffer, p: nat, e: nat)
    requires p <= e < |b| && b[e] == NUL && forall i :: p <= i < e ==> b[i] != NUL
    ensures End(b, p) == e
  {
  }

  /** A string to be used as a set of delimiters, or as a needle. */
  predicate Plain(ct: string) {
    NUL !in ct
  }

  /** From p on, the first character that is no delimiter; the NUL is none. */
  function SkipDelimiters(b: Buffer, p: nat, ct: string): (i: nat)
    requires Terminated(b, p) && Plain(ct)
    ensures p <= i <= End(b, p) && b[i] !in ct && forall k :: p <= k < i ==> b[k] in ct
    decreases |b| - p
  {
    if b[p] in ct then SkipDelimiters(b, p + 1, ct) else p
  }

  /** From p on, the first delimiter or the NUL. */
  function TokenEnd(b: Buffer, p: nat, ct: string): (j: nat)
    requires Terminated(b, p)
    ensures p <= j <= End(b, p) && (b[j] == NUL || b[j] in ct) && forall k :: p <= k < j ==> b[k] != NUL && b[k] !in ct
    decreases |b| - p
  {
    if b[p] == NUL || b[p] in ct then p else TokenEnd(b, p + 1, ct)
  }

  /** What a call leaves: the token's place or NULL, the buffer, and ___strtok. */
  datatype Outcome = Outcome(res: int, b: Buffer, next: int)

  predicate Pointer(b: Buffer, at: int) {
    at == NULL || (0 <= at && Terminated(b, at))
  }

  /** strtok, looking from at on: its argument, or ___strtok when that is NULL. */
  function Call(b: Buffer, at: int, ct: string): Outcome
    requires Pointer(b, at) && Plain(ct)
  {
    if at == NULL || ct == "" then Outcome(NULL, b, NULL)
    else
      var i := SkipDelimiters(b, at, ct);
      if b[i] == NUL then Outcome(NULL, b, NULL)
      else
        SameEnd(b, at, i);
        var j := TokenEnd(b, i, ct);
        if b[j] == NUL then Outcome(i, b, NULL) else Outcome(i, b[j := NUL], j + 1)
  }

  lemma SameEnd(b: Buffer, p: nat, q: nat)
    requires Terminated(b, p) && p <= q <= End(b, p)
    ensures End(b, q) == End(b, p)
  {
    EndIs(b, q, End(b, p));
  }

  lemma CallFindsNone(b: Buffer, at: int, ct: string)
    requires Pointer(b, at) && Plain(ct) && (at == NULL || ct == "" || b[SkipDelimiters(b, at, ct)] == NUL)
    ensures Call(b, at, ct) == Outcome(NULL, b, NULL)
  {
  }

  lemma CallFinds(b: Buffer, at: nat, ct: string, i: nat, j: nat)
    requires Terminated(b, at) && Plain(ct) && ct != "" && i == SkipDelimiters(b, at, ct) && b[i] != NUL
    requires Terminated(b, i) && j == TokenEnd(b, i, ct)
    ensures Call(b, at, ct) == if b[j] == NUL then Outcome(i, b, NULL) else Outcome(i, b[j := NUL], j + 1)
  {
  }

  class Tokenizer {
    const buf: array<char>

    /** ___strtok */
    var next: int

    constructor (buf: array<char>)
      ensures this.buf == buf && next == NULL
    {
      this.buf, next := buf, NULL;
    }

    /** The loop at label 2, and the step back behind it. */
    method Skip(p: nat, ct: string) returns (si: nat)
      requires Plain(ct) && Terminated(buf[..], p)
      ensures si == SkipDelimiters(buf[..], p, ct)
    {
      ghost var b := buf[..];
      si := p;
      var al := buf[si];
      si := si + 1;
      while al != NUL && al in ct
        invariant p < si <= End(b, p) + 1 && al == b[si - 1]
        invariant SkipDelimiters(b, p, ct) == SkipDelimiters(b, si - 1, ct)
        invariant Terminated(b, si - 1)
        decreases |b| - si
      {
        al := buf[si];
        si := si + 1;
      }
      si := si - 1;
    }

    /** The loop at label 3. */
    method Scan(p: nat, ct: string) returns (al: char, si: nat)
      requires Plain(ct) && Terminated(buf[..], p)
      ensures si == TokenEnd(buf[..], p, ct) + 1 && al == buf[si - 1]
    {
      ghost var b := buf[..];
      si := p;
      al := buf[si];
      si := si + 1;
      while al != NUL && al !in ct
        invariant p < si <= End(b, p) + 1 && al == b[si - 1]
        invariant Terminated(b, si - 1)
        invariant TokenEnd(b, p, ct) == TokenEnd(b, si - 1, ct)
        decreases |b| - si
      {
        al := buf[si];
        si := si + 1;
      }
    }

    method Strtok(s: int, ct: string) returns (res: int)
      requires Plain(ct) && Pointer(buf[..], s) && Pointer(buf[..], next)
      modifies this, buf
      ensures var at := if s != NULL then s else old(next);
        Outcome(res, buf[..], next) == Call(old(buf[..]), at, ct)
    {
      hide Call, SkipDelimiters, TokenEnd, End;
      ghost var b := buf[..];
      var si := s;
      if si == NULL {
        if next == NULL {
          CallFindsNone(b, next, ct);
          return NULL;
        }
        si := next;
      }
      if ct == "" {
        CallFindsNone(b, si, ct);
        next := NULL;
        return NULL;
      }
      ghost var at := si;
      si := Skip(si, ct);
      if buf[si] == NUL {
        CallFindsNone(b, at, ct);
        next := NULL;
        return NULL;
      }
      SameEnd(b, at, si);
      res := si;
      var al;
      al, si := Scan(si, ct);
      CallFinds(b, at, ct, res, si - 1);
      if al == NUL {
        next := NULL;
      } else {
        si := si - 1;
        buf[si] := NUL;
        next := si + 1;
      }
    }
  }

  // The tokens of a string

  /** A maximal run of characters that are no delimiters, in the string from p on. */
  predicate IsRun(b: Buffer, p: nat, ct: string, i: nat, j: nat)
    requires Terminated(b, p)
  {
    && p <= i < j <= End(b, p)
    && (forall k :: i <= k < j ==> b[k] !in ct)
    && (i == p || b[i - 1] in ct)
    && (j == End(b, p) || b[j] in ct)
  }

  /** Where the tokens of the string at p begin and end. */
  function Tokens(b: Buffer, p: nat, ct: string): seq<(nat, nat)>
    requires Terminated(b, p) && Plain(ct)
    decreases |b| - p
  {
    var i := SkipDelimiters(b, p, ct);
    if b[i] == NUL then []
    else
      SameEnd(b, p, i);
      var j := TokenEnd(b, i, ct);
      if b[j] == NUL then [(i, j)]
      else
        SameEnd(b, p, j + 1);
        [(i, j)] + Tokens(b, j + 1, ct)
  }

  lemma RunFurtherLeft(b: Buffer, p: nat, q: nat, ct: string, i: nat, j: nat)
    requires Terminated(b, p) && p < q <= End(b, p) && b[q - 1] in ct
    ensures Terminated(b, q)
    ensures IsRun(b, p, ct, i, j) && q <= i <==> IsRun(b, q, ct, i, j)
  {
    SameEnd(b, p, q);
  }

  lemma FirstIsRun(b: Buffer, p: nat, ct: string, i: nat, j: nat)
    requires Terminated(b, p) && Plain(ct) && i == SkipDelimiters(b, p, ct) && b[i] != NUL
    requires Terminated(b, i) && End(b, i) == End(b, p) && j == TokenEnd(b, i, ct)
    ensures IsRun(b, p, ct, i, j)
  {
    hide SkipDelimiters, TokenEnd, End;
    if i > p { assert b[i - 1] in ct; }
  }

  lemma {:induction false} TokensUnfold(b: Buffer, p: nat, ct: string, i: nat, j: nat)
    requires Terminated(b, p) && Plain(ct) && i == SkipDelimiters(b, p, ct)
    requires b[i] != NUL ==> Terminated(b, i) && j == TokenEnd(b, i, ct) && (b[j] != NUL ==> Terminated(b, j + 1))
    ensures Tokens(b, p, ct) == if b[i] == NUL then [] else [(i, j)] + if b[j] == NUL then [] else Tokens(b, j + 1, ct)
  {
    hide SkipDelimiters, TokenEnd, End, Plain;
    if b[i] != NUL {
      SameEnd(b, p, i);
      if b[j] != NUL { SameEnd(b, p, j + 1); }
    }
  }

  /** The first token, and the tokens behind it. */
  lemma TokensFirst(b: Buffer, p: nat, ct: string) returns (i: nat, j: nat, rest: seq<(nat, nat)>)
    requires Terminated(b, p) && Plain(ct)
    ensures i == SkipDelimiters(b, p, ct) <= End(b, p) && Terminated(b, i) && End(b, i) == End(b, p)
    ensures b[i] == NUL ==> Tokens(b, p, ct) == []
    ensures b[i] != NUL ==> j == TokenEnd(b, i, ct) && IsRun(b, p, ct, i, j) && Tokens(b, p, ct) == [(i, j)] + rest
    ensures b[i] != NUL && b[j] == NUL ==> rest == []
    ensures b[i] != NUL && b[j] != NUL ==> p <= j < End(b, p) && b[j] in ct && Terminated(b, j + 1) && rest == Tokens(b, j + 1, ct)
  {
    hide SkipDelimiters, TokenEnd, End, Tokens, IsRun;
    i := SkipDelimiters(b, p, ct);
    SameEnd(b, p, i);
    j, rest := 0, [];
    if b[i] != NUL {
      j := TokenEnd(b, i, ct);
      FirstIsRun(b, p, ct, i, j);
      if b[j] != NUL {
        SameEnd(b, p, j + 1);
        rest := Tokens(b, j + 1, ct);
      }
    }
    TokensUnfold(b, p, ct, i, j);
  }

  lemma {:induction false} TokensInside(b: Buffer, p: nat, ct: string, k: nat)
    requires Terminated(b, p) && Plain(ct) && k < |Tokens(b, p, ct)|
    ensures var (i, j) := Tokens(b, p, ct)[k]; IsRun(b, p, ct, i, j)
    ensures k > 0 ==> Tokens(b, p, ct)[k - 1].1 < Tokens(b, p, ct)[k].0
    decreases |b| - p
  {
    hide Tokens, IsRun, SkipDelimiters, TokenEnd, End;
    var i, j, ts := TokensFirst(b, p, ct);
    if k > 0 {
      TokensInside(b, j + 1, ct, k - 1);
      RunFurtherLeft(b, p, j + 1, ct, ts[k - 1].0, ts[k - 1].1);
      if k == 1 { FirstRun(b, j + 1, ct, ts[0].0, ts[0].1); }
    }
  }

  lemma FirstRun(b: Buffer, p: nat, ct: string, i: nat, j: nat)
    requires Terminated(b, p) && IsRun(b, p, ct, i, j)
    ensures p <= i < j <= End(b, p)
  {
  }

  /** The tokens are exactly the maximal runs, from left to right. */
  lemma {:induction false} TokensAreRuns(b: Buffer, p: nat, ct: string, i: nat, j: nat)
    requires Terminated(b, p) && Plain(ct)
    ensures (i, j) in Tokens(b, p, ct) <==> IsRun(b, p, ct, i, j)
    decreases |b| - p
  {
    if (i, j) in Tokens(b, p, ct) {
      var k :| 0 <= k < |Tokens(b, p, ct)| && Tokens(b, p, ct)[k] == (i, j);
      TokensInside(b, p, ct, k);
    }
    if IsRun(b, p, ct, i, j) {
      RunListed(b, p, ct, i, j);
    }
  }

  /** A run begins where the first token begins, and is that token, or behind it. */
  lemma RunPlace(b: Buffer, p: nat, ct: string, i: nat, j: nat, i': nat, j': nat)
    requires Terminated(b, p) && Plain(ct) && IsRun(b, p, ct, i, j) && i' == SkipDelimiters(b, p, ct)
    requires Terminated(b, i') && End(b, i') == End(b, p)
    ensures b[i'] != NUL && i' <= i
    ensures j' == TokenEnd(b, i', ct) ==> if i == i' then j == j' else j' < i && b[j'] != NUL
  {
    hide SkipDelimiters, TokenEnd, End;
    assert b[i] !in ct;
    assert i > i' ==> b[i - 1] in ct;
  }

  lemma {:induction false} RunListed(b: Buffer, p: nat, ct: string, i: nat, j: nat)
    requires Terminated(b, p) && Plain(ct) && IsRun(b, p, ct, i, j)
    ensures (i, j) in Tokens(b, p, ct)
    decreases |b| - p
  {
    hide SkipDelimiters, TokenEnd, End, Tokens, IsRun;
    var i', j', ts := TokensFirst(b, p, ct);
    RunPlace(b, p, ct, i, j, i', j');
    if i == i' {
      assert (i, j) == Tokens(b, p, ct)[0];
    } else {
      RunFurtherLeft(b, p, j' + 1, ct, i, j);
      RunListed(b, j' + 1, ct, i, j);
    }
  }

  /** n calls, the first looking from at on and the others with a NULL argument. */
  function Calls(b: Buffer, at: int, ct: string, n: nat): (seq<int>, Outcome)
    requires Pointer(b, at) && Plain(ct)
    decreases n
  {
    if n == 0 then ([], Outcome(NULL, b, at))
    else
      var o := Call(b, at, ct);
      CallKeepsPointer(b, at, ct);
      var (rs, last) := Calls(o.b, o.next, ct, n - 1);
      ([o.res] + rs, last)
  }

  lemma CallKeepsPointer(b: Buffer, at: int, ct: string)
    requires Pointer(b, at) && Plain(ct)
    ensures Pointer(Call(b, at, ct).b, Call(b, at, ct).next)
  {
    var o := Call(b, at, ct);
    if o.next != NULL {
      var i := SkipDelimiters(b, at, ct);
      SameEnd(b, at, i);
      var j := TokenEnd(b, i, ct);
      EndIs(o.b, j + 1, End(b, at));
    }
  }

  /** The buffer with the character after each token zeroed. */
  function Cut(b: Buffer, ts: seq<(nat, nat)>): (c: Buffer)
    ensures |c| == |b|
    decreases |ts|
  {
    if ts == [] then b
    else if ts[0].1 < |b| then Cut(b[ts[0].1 := NUL], ts[1..])
    else Cut(b, ts[1..])
  }

  predicate SameFrom(b: Buffer, c: Buffer, p: nat) {
    |b| == |c| && forall i :: p <= i < |b| ==> b[i] == c[i]
  }

  lemma {:induction false} SameStrings(b: Buffer, c: Buffer, p: nat, ct: string)
    requires Terminated(b, p) && Plain(ct) && SameFrom(b, c, p)
    ensures Terminated(c, p) && End(c, p) == End(b, p)
    ensures SkipDelimiters(c, p, ct) == SkipDelimiters(b, p, ct) && TokenEnd(c, p, ct) == TokenEnd(b, p, ct)
    decreases |b| - p
  {
    EndIs(c, p, End(b, p));
    if p < End(b, p) {
      SameEnd(b, p, p + 1);
      SameStrings(b, c, p + 1, ct);
    }
  }

  lemma {:induction false} SameTokens(b: Buffer, c: Buffer, p: nat, ct: string)
    requires Terminated(b, p) && Plain(ct) && SameFrom(b, c, p)
    ensures Terminated(c, p) && Tokens(c, p, ct) == Tokens(b, p, ct)
    decreases |b| - p
  {
    hide SkipDelimiters, TokenEnd, End, Tokens, IsRun;
    SameStrings(b, c, p, ct);
    var i, j, ts := TokensFirst(b, p, ct);
    var i', j', ts' := TokensFirst(c, p, ct);
    if b[i] != NUL {
      SameStrings(b, c, i, ct);
      if b[j] != NUL {
        SameTokens(b, c, j + 1, ct);
      }
    }
  }

  lemma {:induction false} NothingLeft(b: Buffer, ct: string, n: nat)
    requires Plain(ct)
    ensures var (rs, o) := Calls(b, NULL, ct, n);
      |rs| == n && (forall k :: 0 <= k < n ==> rs[k] == NULL) && o == Outcome(NULL, b, NULL)
  {
    if n > 0 { NothingLeft(b, ct, n - 1); }
  }

  /** With an empty set of delimiters no call returns anything, though the string is one token: strtok gives up at
      once and forgets the string. */
  lemma EmptySetReturnsNone(b: Buffer, p: nat, n: nat)
    requires Terminated(b, p)
    ensures var (rs, o) := Calls(b, p, "", n);
      |rs| == n && (forall k :: 0 <= k < n ==> rs[k] == NULL) && o.b == b && (n > 0 ==> o.next == NULL)
  {
    if n > 0 { NothingLeft(b, "", n - 1); }
  }

  function Min(a: nat, b: nat): nat {
    if a < b then a else b
  }

  /** One call, seen from the tokens. */
  lemma CallReturnsFirst(b: Buffer, p: nat, ct: string) returns (ts: seq<(nat, nat)>)
    requires Terminated(b, p) && Plain(ct) && ct != ""
    ensures var o, all := Call(b, p, ct), Tokens(b, p, ct);
      && Pointer(o.b, o.next) && |o.b| == |b|
      && (all == [] ==> o == Outcome(NULL, b, NULL))
      && (all != [] ==> ts == all[1..] && o.res == all[0].0 && all[0].1 < |b| && o.b == b[all[0].1 := NUL])
      && (all != [] && o.next == NULL ==> ts == [])
      && (all != [] && o.next != NULL ==> p < o.next < |b| && ts == Tokens(o.b, o.next, ct))
  {
    hide SkipDelimiters, TokenEnd, End, Tokens, IsRun;
    var i, j;
    i, j, ts := TokensFirst(b, p, ct);
    CallKeepsPointer(b, p, ct);
    if b[i] == NUL {
      CallFindsNone(b, p, ct);
    } else {
      CallFinds(b, p, ct, i, j);
      if b[j] != NUL {
        SameTokens(b, b[j := NUL], j + 1, ct);
      } else {
        assert b[j := NUL] == b;
      }
    }
  }

  /** Successive calls return the tokens in order and then NULL for ever, and change the buffer only
      by a NUL behind each token they have returned. */
  lemma {:induction false} CallsReturnTokens(b: Buffer, p: nat, ct: string, n: nat)
    requires Terminated(b, p) && Plain(ct) && ct != ""
    ensures var ((rs, o), ts) := (Calls(b, p, ct, n), Tokens(b, p, ct));
      && |rs| == n && (forall k :: 0 <= k < n ==> rs[k] == if k < |ts| then ts[k].0 as int else NULL)
      && o.b == Cut(b, ts[..Min(n, |ts|)])
      && (n > |ts| ==> o.next == NULL)
    decreases n
  {
    hide Call, Tokens;
    if n > 0 {
      var o, all := Call(b, p, ct), Tokens(b, p, ct);
      var ts := CallReturnsFirst(b, p, ct);
      CallKeepsPointer(b, p, ct);
      if all == [] || o.next == NULL {
        NothingLeft(o.b, ct, n - 1);
      } else {
        CallsReturnTokens(o.b, o.next, ct, n - 1);
      }
      if all != [] {
        CutFirst(b, all, Min(n, |all|));
      }
    }
  }

  lemma CutFirst(b: Buffer, ts: seq<(nat, nat)>, m: nat)
    requires 1 <= m <= |ts| && ts[0].1 < |b|
    ensures Cut(b, ts[..m]) == Cut(b[ts[0].1 := NUL], ts[1..][..m - 1])
  {
    assert ts[..m][1..] == ts[1..][..m - 1];
  }

  lemma {:induction false} CutAbove(b: Buffer, ts: seq<(nat, nat)>, q: nat)
    requires q < |b| && forall k :: 0 <= k < |ts| ==> q < ts[k].1
    ensures Cut(b, ts)[..q + 1] == b[..q + 1]
    decreases |ts|
  {
    if ts != [] {
      var c := if ts[0].1 < |b| then b[ts[0].1 := NUL] else b;
      assert c[..q + 1] == b[..q + 1];
      CutAbove(c, ts[1..], q);
    }
  }

  /** What a call returned is, from then on, a string of its own: the token. */
  lemma {:induction false} TokenText(b: Buffer, p: nat, ct: string, k: nat, m: nat)
    requires Terminated(b, p) && Plain(ct) && ct != "" && k < m <= |Tokens(b, p, ct)|
    ensures var (i, j), c := Tokens(b, p, ct)[k], Cut(b, Tokens(b, p, ct)[..m]);
      i <= j < |b| && Terminated(c, i) && Text(c, i) == b[i..j]
    decreases |b| - p
  {
    hide SkipDelimiters, TokenEnd, End, Tokens, Cut;
    var i, j, rest := TokensFirst(b, p, ct);
    var ts, b' := Tokens(b, p, ct), b[j := NUL];
    CutFirst(b, ts, m);
    assert ts[1..] == rest;
    if b[j] != NUL { SameTokens(b, b', j + 1, ct); }
    if k == 0 {
      forall l | 0 <= l < m - 1 ensures j < rest[l].1 {
        TokensInside(b, j + 1, ct, l);
      }
      CutAbove(b', rest[..m - 1], j);
      TextKept(b, i, j, Cut(b', rest[..m - 1]));
    } else {
      TokensInside(b, j + 1, ct, k - 1);
      TokenText(b', j + 1, ct, k - 1, m - 1);
      assert b'[rest[k - 1].0..rest[k - 1].1] == b[rest[k - 1].0..rest[k - 1].1];
    }
  }

  lemma TextKept(b: Buffer, i: nat, j: nat, c: Buffer)
    requires i <= j < |b| == |c| && (forall k :: i <= k < j ==> b[k] != NUL) && c[..j + 1] == b[j := NUL][..j + 1]
    ensures Terminated(c, i) && Text(c, i) == b[i..j]
  {
    assert forall k :: 0 <= k <= j ==> c[k] == c[..j + 1][k] == b[j := NUL][k];
    EndIs(c, i, j);
  }

  // strstr

  /** The needle ct occurs in the string at p, from index k on. */
  predicate Occurs(b: Buffer, p: nat, ct: string, k: int)
    requires Terminated(b, p)
  {
    p <= k && k + |ct| <= End(b, p) && b[k..k + |ct|] == ct
  }

  /** repe cmpsb: how many characters of ct agree with those from k on. The NUL agrees with none. */
  method Compare(b: array<char>, p: nat, ct: string, k: nat) returns (m: nat)
    requires Terminated(b[..], p) && Plain(ct) && p <= k <= End(b[..], p)
    ensures m <= |ct| && k + m <= End(b[..], p) && b[k..k + m] == ct[..m]
    ensures m < |ct| ==> b[k + m] != ct[m]
  {
    m := 0;
    while m < |ct| && b[k + m] == ct[m]
      invariant m <= |ct| && k + m <= End(b[..], p) && b[k..k + m] == ct[..m]
    {
      assert ct[m] in ct;
      m := m + 1;
    }
  }

  /** strstr: the first occurrence, or NULL if there is none. The search ends at the first comparison
      that fails on the NUL: what is left of the string is then shorter than the needle. */
  method Strstr(b: array<char>, p: nat, ct: string) returns (res: int)
    requires Terminated(b[..], p) && Plain(ct)
    ensures res != NULL ==> Occurs(b[..], p, ct, res) && forall k :: p <= k < res ==> !Occurs(b[..], p, ct, k)
    ensures res == NULL ==> forall k :: !Occurs(b[..], p, ct, k)
    ensures ct == "" ==> res == p
  {
    ghost var v, end := b[..], End(b[..], p);
    hide End;
    res := p;
    while true
      invariant ct == "" ==> res == p
      invariant p <= res <= end && forall k :: p <= k < res ==> !Occurs(v, p, ct, k)
      decreases end - res
    {
      var m := Compare(b, p, ct, res);
      if m == |ct| {
        assert v[res..res + |ct|] == b[res..res + m] == ct;
        return;
      }
      assert res + |ct| <= end ==> v[res..res + |ct|][m] == v[res + m] != ct[m];
      if b[res + m] == NUL {
        assert res + m == end;
        assert forall k :: Occurs(v, p, ct, k) ==> p <= k < res;
        return NULL;
      }
      res := res + 1;
    }
  }
}
