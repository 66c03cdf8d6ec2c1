/**
 What redaction of URL userinfo guarantees: a second pass changes nothing, and the output does not depend
 on the userinfo it masked.
 */
module UserinfoLaws {
  import Redaction
  import opened Userinfo

  // ----- Locality -----

  /** What follows the first `://` does not move it. */
  lemma {:induction false} SchemeIsLocal(t: string, y: string)
    requires SchemeAt(t) < |t|
    ensures SchemeAt(t[..SchemeAt(t) + 3] + y) == SchemeAt(t) < |t[..SchemeAt(t) + 3] + y|
  {
    var u := t[..SchemeAt(t) + 3] + y;
    if "://" <= t {
      assert "://" <= u;
    } else {
      SchemeIsLocal(t[1..], y);
      assert u[1..] == t[1..][..SchemeAt(t[1..]) + 3] + y;
      assert forall i | 0 <= i < 3 :: u[i] == t[i];
    }
  }

  /** Nor does what follows the end of an authority change where it ends. */
  lemma AuthorityIsLocal(x: string, y: string, z: string)
    requires Authority(x + y) <= |x|
    requires Authority(x + y) == |x| ==> if y == [] then z == [] else z != [] && z[0] == y[0]
    ensures Authority(x + z) == Authority(x + y)
  {
    hide Authority;
    var n := Authority(x + y);
    AuthorityIs(x + y, n);
    AuthorityIs(x + z, n);
    assert forall i | 0 <= i < |x| :: (x + y)[i] == x[i] == (x + z)[i];
  }

  lemma FirstChar(t: string)
    ensures t == [] <==> Redact(t) == []
    ensures t != [] ==> Redact(t)[0] == t[0]
  {
    hide Authority;
    if t != [] {
      RedactOnce(t);
    }
  }

  // ----- One round on a text taken apart -----

  predicate IsHead(head: string) { |head| >= 3 && SchemeAt(head) == |head| - 3 }

  lemma HeadOf(t: string)
    requires SchemeAt(t) < |t|
    ensures IsHead(t[..SchemeAt(t) + 3])
  {
    hide SchemeAt;
    SchemeIsLocal(t, []);
    assert t[..SchemeAt(t) + 3] + [] == t[..SchemeAt(t) + 3];
  }

  lemma SchemeAfterHead(head: string, tail: string)
    requires IsHead(head)
    ensures |head| >= 3 && SchemeAt(head + tail) == |head| - 3
    ensures (head + tail)[|head|..] == tail && (head + tail)[..|head|] == head
  {
    SchemeIsLocal(head, tail);
    assert head[..|head|] == head;
  }

  lemma RoundAfterHead(head: string, tail: string)
    requires IsHead(head)
    ensures var n := Authority(tail);
            Redact(head + tail) ==
            if n < |tail| && tail[n] == '@' then head + (MASK + Redact(tail[n + 1..]))
            else head + (tail[..n] + Redact(tail[n..]))
  {
    hide Authority, Redact, SchemeAt, IsHead;
    var n := Authority(tail);
    SchemeAfterHead(head, tail);
    RedactOnce(head + tail);
    if n < |tail| && tail[n] == '@' {
      assert (head + tail)[|head| + n + 1..] == tail[n + 1..];
    } else {
      assert (head + tail)[|head| + n..] == tail[n..];
    }
  }

  // ----- The fixed point -----

  /** A round that masks is repeated on its own output. */
  lemma MaskedAgain(head: string, tail: string)
    requires IsHead(head) && Authority(tail) < |tail| && tail[Authority(tail)] == '@'
    requires var rest := Redact(tail[Authority(tail) + 1..]); Redact(rest) == rest
    ensures Redact(Redact(head + tail)) == Redact(head + tail)
  {
    hide Authority, Redact, IsHead;
    var rest := Redact(tail[Authority(tail) + 1..]);
    RoundAfterHead(head, tail);
    MaskIsUserinfo(rest);
    RoundAfterHead(head, MASK + rest);
    assert (MASK + rest)[11..] == rest;
  }

  /** So is one that copies an authority without userinfo. */
  lemma CopiedAgain(head: string, tail: string)
    requires IsHead(head) && (Authority(tail) == |tail| || tail[Authority(tail)] != '@')
    requires var rest := Redact(tail[Authority(tail)..]); Redact(rest) == rest
    ensures Redact(Redact(head + tail)) == Redact(head + tail)
  {
    hide Authority, Redact, IsHead;
    var n := Authority(tail);
    var rest := Redact(tail[n..]);
    RoundAfterHead(head, tail);
    FirstChar(tail[n..]);
    assert tail[..n] + tail[n..] == tail;
    AuthorityIsLocal(tail[..n], tail[n..], rest);
    RoundAfterHead(head, tail[..n] + rest);
    assert (tail[..n] + rest)[n..] == rest && (tail[..n] + rest)[..n] == tail[..n];
  }

  lemma {:induction false} RedactIsFixedPoint(t: string)
    ensures Redact(Redact(t)) == Redact(t)
    decreases |t|
  {
    hide Authority, Redact, SchemeAt, IsHead;
    var scheme := SchemeAt(t);
    if scheme == |t| {
      NoSchemeNoChange(t);
    } else {
      var head, tail := t[..scheme + 3], t[scheme + 3..];
      var n := Authority(tail);
      assert t == head + tail;
      HeadOf(t);
      if n < |tail| && tail[n] == '@' {
        RedactIsFixedPoint(tail[n + 1..]);
        MaskedAgain(head, tail);
      } else {
        RedactIsFixedPoint(tail[n..]);
        CopiedAgain(head, tail);
      }
    }
  }

  lemma MaskIsUserinfo(rest: string)
    ensures Authority(MASK + rest) == 10 && (MASK + rest)[10] == '@' && |MASK| == 11
  {
    hide Authority;
    assert forall c | c in Redaction.REDACTED :: InUserinfo(c);
    assert forall i | 0 <= i < 10 ::
          (MASK + rest)[i] == Redaction.REDACTED[i] && Redaction.REDACTED[i] in Redaction.REDACTED;
    AuthorityIs(MASK + rest, 10);
  }

  // ----- Non-interference -----

  /** The search comes to start at position `i`. */
  predicate Reaches(t: string, i: nat)
    requires i <= |t|
    decreases |t|
  {
    i == 0 ||
    var taken := SearchOnce(t).taken;
    t != [] && taken <= i && Reaches(t[taken..], i - taken)
  }

  predicate IsUserinfo(s: string) { forall c | c in s :: InUserinfo(c) }

  lemma UserinfoRound(head: string, userinfo: string, rest: string)
    requires IsHead(head) && IsUserinfo(userinfo) && rest != [] && rest[0] == '@'
    ensures Redact(head + (userinfo + rest)) == head + (MASK + Redact(rest[1..]))
  {
    hide Authority, Redact;
    var tail := userinfo + rest;
    assert forall i | 0 <= i < |userinfo| :: tail[i] == userinfo[i] && userinfo[i] in userinfo;
    AuthorityIs(tail, |userinfo|);
    RoundAfterHead(head, tail);
    assert tail[|userinfo| + 1..] == rest[1..];
  }

  /** A round that ends before `y` goes the same before any text that starts alike. */
  lemma RoundIsLocal(p: string, y: string, z: string)
    requires p != [] && y != [] && z != [] && y[0] == z[0]
    requires SearchOnce(p + y).taken <= |p|
    ensures SearchOnce(p + z) == SearchOnce(p + y)
  {
    hide Authority, SchemeAt;
    var s := SchemeAt(p + y);
    var x := p[s + 3..];
    SchemeIsLocal(p + y, x + z);
    assert (p + y)[..s + 3] == p[..s + 3] && p[..s + 3] + (x + z) == p + z;
    assert (p + y)[s + 3..] == x + y && (p + z)[s + 3..] == x + z;
    AuthorityIsLocal(x, y, z);
    assert (x + y)[..Authority(x + y)] == (x + z)[..Authority(x + y)];
  }

  lemma {:induction false} UserinfoBehind(p: string, head: string, v: string, w: string, rest: string)
    requires IsHead(head) && IsUserinfo(v) && IsUserinfo(w) && rest != [] && rest[0] == '@'
    requires Reaches(p + (head + (v + rest)), |p|)
    ensures Redact(p + (head + (v + rest))) == Redact(p + (head + (w + rest)))
    decreases |p|
  {
    hide Redact, SearchOnce;
    var y, z := head + (v + rest), head + (w + rest);
    if p == [] {
      assert p + y == y && p + z == z;
      UserinfoRound(head, v, rest);
      UserinfoRound(head, w, rest);
    } else {
      var taken := SearchOnce(p + y).taken;
      RoundIsLocal(p, y, z);
      assert (p + y)[taken..] == p[taken..] + y && (p + z)[taken..] == p[taken..] + z;
      UserinfoBehind(p[taken..], head, v, w, rest);
      RedactOnce(p + y);
      RedactOnce(p + z);
    }
  }

  /** An authority with an `@`, taken apart. */
  lemma UserinfoParts(t: string)
    requires SchemeAt(t) < |t|
    ensures var head, tail := t[..SchemeAt(t) + 3], t[SchemeAt(t) + 3..];
            && IsHead(head) && IsUserinfo(tail[..Authority(tail)])
            && t == head + (tail[..Authority(tail)] + tail[Authority(tail)..])
  {
    hide Authority, SchemeAt, IsHead, InUserinfo, IsUserinfo;
    var start := SchemeAt(t) + 3;
    var n := Authority(t[start..]);
    HeadOf(t);
    AuthorityIsUserinfo(t[start..]);
    Redaction.Slices(t, start, start + n);
    Redaction.ThreeParts(t, start, start + n);
  }

  lemma AuthorityIsUserinfo(tail: string)
    ensures IsUserinfo(tail[..Authority(tail)])
  {
    hide Authority, InUserinfo;
    AuthorityIs(tail, Authority(tail));
    assert forall i | 0 <= i < Authority(tail) :: tail[..Authority(tail)][i] == tail[i];
  }

  /**
   When the search reaches a `://` whose authority has an `@`, any other userinfo gives the same output:
   nothing of it shows.
   */
  lemma UserinfoDoesNotShow(before: string, t: string, other: string)
    requires Reaches(before + t, |before|) && IsUserinfo(other)
    requires var tail := if SchemeAt(t) < |t| then t[SchemeAt(t) + 3..] else [];
             Authority(tail) < |tail| && tail[Authority(tail)] == '@'
    ensures var head, tail := t[..SchemeAt(t) + 3], t[SchemeAt(t) + 3..];
            Redact(before + (head + (other + tail[Authority(tail)..]))) == Redact(before + t)
  {
    hide Redact, Authority, SchemeAt, Reaches, IsHead, IsUserinfo;
    var head, tail := t[..SchemeAt(t) + 3], t[SchemeAt(t) + 3..];
    UserinfoParts(t);
    UserinfoBehind(before, head, tail[..Authority(tail)], other, tail[Authority(tail)..]);
  }

  // ----- Which texts are masked, character by character -----

  /** What ends an authority. */
  const DELIMITERS := "/?#\"'<>`\\ \t\r\n"

  predicate Unbroken(s: string) { forall c | c in s :: c != '@' && c !in DELIMITERS }

  lemma UnbrokenIs(c: char)
    ensures InUserinfo(c) <==> c != '@' && c !in DELIMITERS
  {
    assert DELIMITERS == ['/', '?', '#', '"', '\'', '<', '>', '`', '\\', ' ', '\t', '\r', '\n'];
  }

  /** Where `://` stands nowhere, the search finds nothing; where it first stands at the end, it finds it there. */
  lemma {:induction false} FirstSchemeIs(t: string, n: nat)
    requires n <= |t| && forall i: nat | i < n :: !Redaction.StandsAt(t, "://", i)
    requires n == |t| || Redaction.StandsAt(t, "://", n)
    ensures SchemeAt(t) == n
  {
    Redaction.StandsFirst(t, "://");
    if n > 0 {
      forall i: nat
        ensures Redaction.StandsAt(t[1..], "://", i) <==> Redaction.StandsAt(t, "://", i + 1)
      {
        Redaction.StandsNext(t, "://", i);
      }
      assert !Redaction.StandsAt(t, "://", 0);
      assert n < |t| ==> Redaction.StandsAt(t[1..], "://", n - 1);
      hide Redaction.StandsAt;
      FirstSchemeIs(t[1..], n - 1);
    }
  }

  /** Text in which no `://` stands before the last three characters, which are it. */
  predicate EndsWithScheme(head: string) {
    |head| >= 3 && Redaction.StandsAt(head, "://", |head| - 3)
    && forall i: nat | i < |head| - 3 :: !Redaction.StandsAt(head, "://", i)
  }

  /** Behind the first `://`, everything up to an `@` is masked if no delimiter stands before it. */
  lemma UserinfoIsMasked(head: string, user: string, rest: string)
    requires EndsWithScheme(head) && Unbroken(user)
    ensures Redact(head + (user + (['@'] + rest))) == head + ("[REDACTED]@" + Redact(rest))
  {
    FirstSchemeIs(head, |head| - 3);
    UnbrokenIsUserinfo(user);
    MaskIs(rest);
    assert IsHead(head);
    hide *;
    UserinfoRound(head, user, ['@'] + rest);
  }

  lemma UnbrokenIsUserinfo(user: string)
    requires Unbroken(user)
    ensures IsUserinfo(user)
  {
    forall c | c in user
      ensures InUserinfo(c)
    {
      UnbrokenIs(c);
    }
  }

  lemma MaskIs(rest: string)
    ensures MASK == "[REDACTED]@"
    ensures (['@'] + rest)[1..] == rest && (['@'] + rest)[0] == '@'
  {
  }

  /** An authority that ends without an `@` is copied, and the search goes on behind it. */
  lemma AuthorityIsCopied(head: string, text: string, rest: string)
    requires EndsWithScheme(head) && Unbroken(text) && (rest == [] || rest[0] in DELIMITERS)
    ensures Redact(head + (text + rest)) == head + (text + Redact(rest))
  {
    FirstSchemeIs(head, |head| - 3);
    forall i | 0 <= i < |text|
      ensures InUserinfo((text + rest)[i])
    {
      assert (text + rest)[i] == text[i] && text[i] in text;
      UnbrokenIs(text[i]);
    }
    if rest != [] {
      UnbrokenIs(rest[0]);
    }
    hide Redact, Redaction.StandsAt, SchemeAt, Authority;
    assert rest != [] ==> (text + rest)[|text|] == rest[0] && rest[0] != '@';
    AuthorityIs(text + rest, |text|);
    RoundAfterHead(head, text + rest);
    assert (text + rest)[..|text|] == text && (text + rest)[|text|..] == rest;
  }

  /** A text without `://` stays as it is. */
  lemma NoUrlNoChange(t: string)
    requires forall i: nat :: !Redaction.StandsAt(t, "://", i)
    ensures Redact(t) == t
  {
    FirstSchemeIs(t, |t|);
    NoSchemeNoChange(t);
  }
}
