/**
 Redaction of the userinfo in URLs: what stands between `://` and `@`. The meaning is a function on what
 is left of the text; the scanner with its cursor and its search position is proved to compute it.
 */
module Userinfo {
  import Redaction

  const MASK := Redaction.REDACTED + "@"

  /** The first `://`. */
  function SchemeAt(t: string): (n: nat)
    ensures n + 3 <= |t| || n == |t|
  {
    if "://" <= t then 0 else if t == [] || SchemeAt(t[1..]) == |t| - 1 then |t| else 1 + SchemeAt(t[1..])
  }

  predicate EndsAuthority(c: char) {
    c in {'/', '?', '#', '"', '\'', '<', '>', '`', '\\', ' ', '\t', '\r', '\n'}
  }

  predicate InUserinfo(c: char) { c != '@' && !EndsAuthority(c) }

  /** How far the authority goes before `@` or its end. */
  function Authority(t: string): (n: nat)
    ensures n <= |t|
  {
    if t != [] && InUserinfo(t[0]) then 1 + Authority(t[1..]) else 0
  }

  /** One round of the search: how many characters it takes, and what it puts out for them. */
  datatype Round = Round(taken: nat, output: string)

  function SearchOnce(t: string): (r: Round)
    ensures t != [] ==> 0 < r.taken
    ensures r.taken <= |t|
  {
    var scheme := SchemeAt(t);
    if scheme == |t| then Round(|t|, t) else RoundOf(t[..scheme + 3], t[scheme + 3..])
  }

  /** The round, once the text up to and with `://` is told from the rest. */
  function RoundOf(head: string, tail: string): (r: Round)
    ensures |head| <= r.taken <= |head| + |tail|
  {
    var n := Authority(tail);
    if n < |tail| && tail[n] == '@' then Round(|head| + n + 1, head + MASK) else Round(|head| + n, head + tail[..n])
  }

  /** The redacted text. */
  function Redact(t: string): string
    decreases |t|
  {
    if t == [] then [] else var round := SearchOnce(t); round.output + Redact(t[round.taken..])
  }

  // ----- The scanner -----

  lemma {:induction false} AuthorityIs(t: string, n: nat)
    requires n <= |t|
    ensures Authority(t) == n <==> (forall i | 0 <= i < n :: InUserinfo(t[i])) && (n < |t| ==> !InUserinfo(t[n]))
  {
    if t != [] && InUserinfo(t[0]) && n > 0 {
      AuthorityIs(t[1..], n - 1);
      assert (forall i | 0 <= i < n :: InUserinfo(t[i])) <==> (forall i | 0 <= i < n - 1 :: InUserinfo(t[1..][i])) by {
        if forall i | 0 <= i < n :: InUserinfo(t[i]) {
          assert forall i | 0 <= i < n - 1 :: t[1..][i] == t[i + 1];
        }
      }
    }
  }

  /** The inner `while`: from the start of the authority to `@` or its end. */
  method ScanAuthority(bytes: string, start: nat) returns (scan: nat, atSign: bool)
    requires start <= |bytes|
    ensures scan == start + Authority(bytes[start..]) <= |bytes|
    ensures atSign == (scan < |bytes| && bytes[scan] == '@')
  {
    scan, atSign := start, false;
    while scan < |bytes|
      invariant start <= scan <= |bytes|
      invariant forall i | start <= i < scan :: InUserinfo(bytes[i])
      invariant !atSign
    {
      if bytes[scan] == '@' {
        atSign := true;
        break;
      }
      if EndsAuthority(bytes[scan]) {
        break;
      }
      scan := scan + 1;
    }
    assert scan < |bytes| ==> bytes[start..][scan - start] == bytes[scan];
    AuthorityIs(bytes[start..], scan - start);
  }

  lemma NoSchemeNoChange(t: string)
    requires SchemeAt(t) == |t|
    ensures Redact(t) == t
  {
    assert t != [] ==> Redact(t) == t + Redact(t[|t|..]);
  }

  lemma RedactOnce(t: string)
    ensures Redact(t) == SearchOnce(t).output + Redact(t[SearchOnce(t).taken..])
  {
    if t == [] {
      assert SearchOnce(t) == Round(0, []);
    }
  }

  /** One round, in terms of positions in the whole text. */
  lemma RedactFrom(input: string, from: nat, authorityStart: nat, scan: nat)
    requires from <= |input| && SchemeAt(input[from..]) < |input| - from
    requires authorityStart == from + SchemeAt(input[from..]) + 3
    requires scan == authorityStart + Authority(input[authorityStart..])
    ensures scan <= |input|
    ensures Redact(input[from..])
         == if scan < |input| && input[scan] == '@'
            then input[from..authorityStart] + (MASK + Redact(input[scan + 1..]))
            else input[from..authorityStart] + (input[authorityStart..scan] + Redact(input[scan..]))
  {
    hide Authority, SchemeAt, Redact;
    RedactOnce(input[from..]);
    Redaction.Slices(input, from, authorityStart);
    Redaction.Slices(input, from, scan);
    Redaction.Slices(input, authorityStart, scan);
    if scan < |input| && input[scan] == '@' {
      Redaction.Slices(input, from, scan + 1);
    }
  }

  /** `redact_url_userinfo` */
  method RedactUrlUserinfo(input: string) returns (output: string)
    ensures output == Redact(input)
  {
    hide Redact, Authority, SchemeAt;
    output := "";
    var cursor, searchStart := 0, 0;
    assert input[0..] == input && input[0..0] == "";
    while SchemeAt(input[searchStart..]) < |input[searchStart..]|
      invariant 0 <= cursor <= searchStart <= |input|
      invariant Redact(input) == output + (input[cursor..searchStart] + Redact(input[searchStart..]))
      decreases |input| - searchStart
    {
      var authorityStart := searchStart + SchemeAt(input[searchStart..]) + 3;
      var scan, atSign := ScanAuthority(input, authorityStart);
      RedactFrom(input, searchStart, authorityStart, scan);
      assert input[cursor..authorityStart] == input[cursor..searchStart] + input[searchStart..authorityStart];
      output := output + input[cursor..authorityStart];
      if atSign {
        output := output + Redaction.REDACTED + "@";
        cursor := scan + 1;
        searchStart := cursor;
      } else {
        cursor := authorityStart;
        searchStart := scan;
      }
    }
    NoSchemeNoChange(input[searchStart..]);
    assert input[cursor..searchStart] + input[searchStart..] == input[cursor..];
    output := output + input[cursor..];
  }
}
