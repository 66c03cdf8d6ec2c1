/**
 What redaction of private key blocks guarantees: no line of the output begins a key, nothing of a key's body
 shows, and exactly when a second pass changes the output.
 */
module PrivateKeyLaws {
  import Redaction
  import opened PrivateKeys

  // ----- Lines -----

  lemma {:induction false} NewlineIs(t: string, n: nat)
    requires n <= |t| && (forall i | 0 <= i < n :: t[i] != '\n') && (n < |t| ==> t[n] == '\n')
    ensures NewlineAt(t) == n
  {
    if n > 0 {
      assert forall i | 0 <= i < n - 1 :: t[1..][i] == t[i + 1];
      NewlineIs(t[1..], n - 1);
    }
  }

  /** A line without newlines, put before a text that is empty or starts with one. */
  lemma LineBack(m: string, t: string)
    requires '\n' !in m && m + t != [] && (t == [] || t[0] == '\n')
    ensures FirstLine(m + t) == if t == [] then Line(m, [], false) else Line(StripReturn(m), t[1..], true)
  {
    assert forall i | 0 <= i < |m| :: (m + t)[i] == m[i] && m[i] in m;
    NewlineIs(m + t, |m|);
    assert (m + t)[..|m|] == m && (t != [] ==> (m + t)[|m| + 1..] == t[1..]);
  }

  lemma {:induction false} ContainsMore(x: string, y: string, pattern: string)
    requires Redaction.Contains(x, pattern)
    ensures Redaction.Contains(x + y, pattern)
    decreases |x|
  {
    if pattern <= x {
      assert pattern <= x + y;
    } else {
      ContainsMore(x[1..], y, pattern);
      assert (x + y)[1..] == x[1..] + y;
    }
  }

  lemma StripBeginsNothing(m: string)
    requires !Begins(m)
    ensures !Begins(StripReturn(m))
  {
    var s := StripReturn(m);
    assert m == s + m[|s|..];
    if Begins(s) {
      ContainsMore(s, m[|s|..], "-----BEGIN ");
      ContainsMore(s, m[|s|..], " PRIVATE KEY-----");
    }
  }

  lemma {:induction false} HasAll(t: string, pattern: string)
    requires Redaction.Contains(t, pattern)
    ensures forall c | c in pattern :: c in t
  {
    if !(pattern <= t) {
      HasAll(t[1..], pattern);
    }
  }

  lemma MarkHasNo(c: char)
    requires c == '-' || c == '\n'
    ensures c !in MARK
  {
  }

  lemma MarkBeginsNothing()
    ensures !Begins(MARK) && '\n' !in MARK && StripReturn(MARK) == MARK
  {
    MarkHasNo('-');
    MarkHasNo('\n');
    hide Redaction.Contains;
    assert "-----BEGIN "[0] in "-----BEGIN ";
    if Begins(MARK) {
      HasAll(MARK, "-----BEGIN ");
    }
  }

  // ----- The shape of the output -----

  lemma {:induction false} TailShape(t: string, inKey: bool, ended: bool)
    ensures var x := Tail(t, inKey, ended); x == [] || x[0] == '\n'
    ensures !inKey && t != [] ==> Tail(t, inKey, ended) != []
    decreases |t|
  {
    hide Begins, Ends;
    if t != [] {
      var l := FirstLine(t);
      hide FirstLine;
      if !Begins(l.text) && inKey {
        TailShape(l.rest, !Ends(l.text), l.ended);
      }
    }
  }

  /** No line of a text begins a key. */
  predicate NoKeyBegins(t: string)
    decreases |t|
  {
    t != [] ==> !Begins(FirstLine(t).text) && NoKeyBegins(FirstLine(t).rest)
  }

  lemma NoKeyBeginsBefore(m: string, t: string)
    requires '\n' !in m && !Begins(m) && (t == [] || (t[0] == '\n' && NoKeyBegins(t[1..])))
    ensures NoKeyBegins(m + t)
  {
    hide Begins, FirstLine, NoKeyBegins;
    StripBeginsNothing(m);
    if m + t != [] {
      LineBack(m, t);
    }
    NoKeyBeginsIs(m + t);
    NoKeyBeginsIs([]);
  }

  lemma NoKeyBeginsIs(t: string)
    ensures NoKeyBegins(t) <==> (t != [] ==> !Begins(FirstLine(t).text) && NoKeyBegins(FirstLine(t).rest))
  {
  }

  lemma {:induction false} TailBeginsNothing(t: string, inKey: bool, ended: bool)
    ensures var x := Tail(t, inKey, ended); x != [] ==> x[0] == '\n' && NoKeyBegins(x[1..])
    decreases |t|
  {
    hide Begins, Ends, NoKeyBegins;
    TailShape(t, inKey, ended);
    if t == [] {
      NoKeyBeginsIs([]);
      assert "\n"[1..] == [];
    } else {
      var l := FirstLine(t);
      hide FirstLine;
      MarkBeginsNothing();
      var x := Tail(t, inKey, ended);
      if Begins(l.text) {
        TailBeginsNothing(l.rest, true, l.ended);
        NoKeyBeginsBefore(MARK, Tail(l.rest, true, l.ended));
        assert x[1..] == MARK + Tail(l.rest, true, l.ended);
      } else if inKey {
        TailBeginsNothing(l.rest, !Ends(l.text), l.ended);
      } else {
        TailBeginsNothing(l.rest, false, l.ended);
        NoKeyBeginsBefore(l.text, Tail(l.rest, false, l.ended));
        assert x[1..] == l.text + Tail(l.rest, false, l.ended);
      }
    }
  }

  lemma {:induction false} HeadBeginsNothing(t: string, inKey: bool, ended: bool)
    ensures NoKeyBegins(Head(t, inKey, ended))
    decreases |t|
  {
    hide Begins, Ends, NoKeyBegins;
    if t == [] {
      EmptyBeginsNothing();
      NoKeyBeginsIs([]);
      assert "\n"[1..] == [] && "" + "\n" == "\n";
      NoKeyBeginsBefore("", "\n");
    } else {
      var l := FirstLine(t);
      hide FirstLine;
      MarkBeginsNothing();
      if Begins(l.text) {
        TailBeginsNothing(l.rest, true, l.ended);
        NoKeyBeginsBefore(MARK, Tail(l.rest, true, l.ended));
      } else if inKey {
        HeadBeginsNothing(l.rest, !Ends(l.text), l.ended);
      } else if l.text == [] {
        HeadBeginsNothing(l.rest, false, l.ended);
      } else {
        TailBeginsNothing(l.rest, false, l.ended);
        NoKeyBeginsBefore(l.text, Tail(l.rest, false, l.ended));
      }
    }
  }

  lemma EmptyBeginsNothing()
    ensures !Begins("")
  {
  }

  /** No line of the output begins a private key. */
  lemma NoKeyBlockIsLeft(t: string)
    ensures NoKeyBegins(Redact(t))
  {
    HeadBeginsNothing(t, false, false);
  }

  // ----- When a second pass changes the output -----

  /** A line that is kept ends with two carriage returns before its newline, of which one is taken away. */
  predicate KeepsReturn(t: string, inKey: bool)
    decreases |t|
  {
    t != [] &&
    var l := FirstLine(t);
    if Begins(l.text) then KeepsReturn(l.rest, true)
    else if inKey then KeepsReturn(l.rest, !Ends(l.text))
    else (l.ended && StripReturn(l.text) != l.text) || KeepsReturn(l.rest, false)
  }

  /** What a second pass makes of a line of the output and of what follows it. */
  lemma TailOfLine(m: string, t: string)
    requires '\n' !in m && !Begins(m) && (t == [] || t[0] == '\n')
    ensures Tail(m + t, false, true)
         == if t == [] then ['\n'] + m else ['\n'] + (StripReturn(m) + Tail(t[1..], false, true))
  {
    StripBeginsNothing(m);
    if m + t != [] {
      LineBack(m, t);
    }
    hide FirstLine, Begins, StripReturn;
    if t == [] {
      assert Tail([], false, false) == [];
      assert m + t == m;
    }
  }

  lemma HeadOfLine(m: string, t: string)
    requires '\n' !in m && !Begins(m) && m != [] && (t == [] || t[0] == '\n')
    ensures Redact(m + t)
         == if t == [] then m
            else if StripReturn(m) == [] then Head(t[1..], false, true)
            else StripReturn(m) + Tail(t[1..], false, true)
  {
    StripBeginsNothing(m);
    LineBack(m, t);
    hide FirstLine, Begins, StripReturn;
    if t == [] {
      assert Tail([], false, false) == [];
      assert m + t == m;
    }
  }

  /** A stripped line before a newline cannot read like the unstripped one. */
  lemma SameOnlyIf(m: string, x: string, t: string)
    requires x != [] && x[0] == '\n'
    ensures StripReturn(m) + x == m + t <==> StripReturn(m) == m && x == t
  {
    var s := StripReturn(m);
    assert (s + x)[|s|] == '\n';
    if s != m {
      assert (m + t)[|s|] == '\r';
    } else {
      assert (s + x)[|s|..] == x && (m + t)[|m|..] == t;
    }
  }

  /** The second pass on what was put out for the rest of a text. */
  lemma {:induction false} TailAgain(t: string, inKey: bool, ended: bool)
    ensures var x := Tail(t, inKey, ended);
            if x == [] then !KeepsReturn(t, inKey)
            else x[0] == '\n' && (Tail(x[1..], false, true) == x <==> !KeepsReturn(t, inKey))
    decreases |t|
  {
    hide Begins, Ends, StripReturn;
    var x := Tail(t, inKey, ended);
    if t == [] {
      assert "\n"[1..] == [];
    } else {
      var l := FirstLine(t);
      hide FirstLine;
      if !Begins(l.text) && inKey {
        TailAgain(l.rest, !Ends(l.text), l.ended);
      } else {
        var m := if Begins(l.text) then MARK else l.text;
        var y := Tail(l.rest, Begins(l.text), l.ended);
        assert x == ['\n'] + (m + y) && x[1..] == m + y;
        MarkBeginsNothing();
        TailAgain(l.rest, Begins(l.text), l.ended);
        LineAgain(m, y);
        TailShape(l.rest, Begins(l.text), l.ended);
      }
    }
  }

  lemma LineAgain(m: string, y: string)
    requires '\n' !in m && !Begins(m) && (y == [] || y[0] == '\n')
    ensures Tail(m + y, false, true) == ['\n'] + (m + y)
            <==> y == [] || (StripReturn(m) == m && Tail(y[1..], false, true) == y)
  {
    TailOfLine(m, y);
    hide Tail, Begins, StripReturn;
    if y != [] {
      var again := Tail(y[1..], false, true);
      TailNotEmpty(y[1..]);
      SameOnlyIf(m, again, y);
      assert (['\n'] + (StripReturn(m) + again))[1..] == StripReturn(m) + again;
      assert (['\n'] + (m + y))[1..] == m + y;
    } else {
      assert m + y == m;
    }
  }

  lemma TailNotEmpty(t: string)
    ensures Tail(t, false, true) != [] && Tail(t, false, true)[0] == '\n'
  {
    TailShape(t, false, true);
  }

  /** Without key blocks a pass puts out no more than it reads, but for one newline. */
  lemma {:induction false} NothingGrows(t: string, ended: bool)
    requires NoKeyBegins(t)
    ensures |Tail(t, false, ended)| <= |t| + 1 && |Head(t, false, ended)| <= |t| + 1
    decreases |t|
  {
    hide Begins, Ends;
    if t != [] {
      var l := FirstLine(t);
      assert |l.text| + (if l.ended then 1 else 0) + |l.rest| <= |t|;
      hide FirstLine;
      NothingGrows(l.rest, l.ended);
      if !l.ended {
        assert Tail(l.rest, false, l.ended) == [] && Head(l.rest, false, l.ended) == [];
      }
    }
  }

  lemma {:induction false} HeadAgain(t: string, inKey: bool, ended: bool)
    ensures Redact(Head(t, inKey, ended)) == Head(t, inKey, ended) <==> !KeepsReturn(t, inKey)
    decreases |t|
  {
    hide Begins, Ends, StripReturn, Redact;
    if t == [] {
      NewlineAlone();
    } else {
      var l := FirstLine(t);
      assert l.text == [] ==> StripReturn(l.text) == l.text by {
        EmptyIsStripped();
      }
      hide FirstLine;
      if !Begins(l.text) && inKey {
        HeadAgain(l.rest, !Ends(l.text), l.ended);
      } else if !Begins(l.text) && l.text == [] {
        HeadAgain(l.rest, false, l.ended);
      } else {
        var m := if Begins(l.text) then MARK else l.text;
        MarkBeginsNothing();
        TailAgain(l.rest, Begins(l.text), l.ended);
        TailShape(l.rest, Begins(l.text), l.ended);
        TailBeginsNothing(l.rest, Begins(l.text), l.ended);
        FirstLineAgain(m, Tail(l.rest, Begins(l.text), l.ended));
      }
    }
  }

  lemma EmptyIsStripped()
    ensures StripReturn([]) == []
  {
  }

  lemma NewlineAlone()
    ensures Redact("") == "" && Redact("\n") == "\n"
  {
    assert "\n" == "" + "\n" && "\n"[1..] == [];
    LineBack("", "\n");
    EmptyBeginsNothing();
    hide Begins, FirstLine;
    assert Head([], false, true) == "\n";
  }

  lemma FirstLineAgain(m: string, y: string)
    requires '\n' !in m && !Begins(m) && m != [] && (y == [] || (y[0] == '\n' && NoKeyBegins(y[1..])))
    ensures Redact(m + y) == m + y <==> y == [] || (StripReturn(m) == m && Tail(y[1..], false, true) == y)
  {
    HeadOfLine(m, y);
    hide Tail, Head, Begins, NoKeyBegins, Redact;
    if y == [] {
      assert m + y == m;
    } else {
      NothingGrows(y[1..], true);
      TailNotEmpty(y[1..]);
      SameOnlyIf(m, Tail(y[1..], false, true), y);
    }
  }

  /**
   A second pass changes nothing exactly when no line outside a key block ends with two carriage returns before
   its newline: `str::lines` takes one away each time.
   */
  lemma RedactAgainIff(t: string)
    ensures Redact(Redact(t)) == Redact(t) <==> !KeepsReturn(t, false)
  {
    hide KeepsReturn, Head;
    HeadAgain(t, false, false);
  }

  // ----- What is inside a block does not show -----

  /** Whole lines. */
  predicate Complete(t: string) { t == [] || EndsWithNewline(t) }

  /** Whole lines of which none begins or ends a key. */
  predicate Quiet(t: string)
    decreases |t|
  {
    Complete(t) && (t != [] ==> !Begins(FirstLine(t).text) && !Ends(FirstLine(t).text) && Quiet(FirstLine(t).rest))
  }

  /** The first of some whole lines does not depend on what follows them. */
  lemma LineIsLocal(t: string, y: string)
    requires t != [] && Complete(t)
    ensures var l := FirstLine(t);
            l.ended && Complete(l.rest) && FirstLine(t + y) == Line(l.text, l.rest + y, true)
  {
    var n := NewlineAt(t);
    assert t[..|t|] == t && t[|t| - 1] in t;
    assert n < |t|;
    assert forall i | 0 <= i < n :: (t + y)[i] == t[i] && t[i] in t[..n];
    NewlineIs(t + y, n);
    assert (t + y)[..n] == t[..n] && (t + y)[n + 1..] == t[n + 1..] + y;
    assert n + 1 < |t| ==> t[n + 1..][|t| - n - 2] == t[|t| - 1];
  }

  /** The body of a key vanishes. */
  lemma {:induction false} BodyVanishes(body: string, rest: string)
    requires Quiet(body)
    ensures Tail(body + rest, true, true) == Tail(rest, true, true)
    decreases |body|
  {
    hide Begins, Ends;
    if body == [] {
      assert body + rest == rest;
    } else {
      LineIsLocal(body, rest);
      BodyVanishes(FirstLine(body).rest, rest);
      hide FirstLine;
    }
  }

  /** From the line that begins a key on. */
  lemma KeyBlock(line: string, body: string, rest: string, inKey: bool, ended: bool)
    requires '\n' !in line && Begins(StripReturn(line)) && Quiet(body)
    ensures var t := line + (['\n'] + (body + rest));
            && Head(t, inKey, ended) == MARK + Tail(rest, true, true)
            && Tail(t, inKey, ended) == ['\n'] + (MARK + Tail(rest, true, true))
  {
    var t := line + (['\n'] + (body + rest));
    LineBack(line, ['\n'] + (body + rest));
    assert (['\n'] + (body + rest))[1..] == body + rest;
    BodyVanishes(body, rest);
    hide Begins, FirstLine, Quiet;
  }

  /** Whole lines before two texts that go on alike, whatever the state, make no difference. */
  lemma {:induction false} SameBehind(before: string, y: string, z: string, inKey: bool, ended: bool)
    requires Complete(before)
    requires forall k, e :: Head(y, k, e) == Head(z, k, e) && Tail(y, k, e) == Tail(z, k, e)
    ensures Head(before + y, inKey, ended) == Head(before + z, inKey, ended)
    ensures Tail(before + y, inKey, ended) == Tail(before + z, inKey, ended)
    decreases |before|
  {
    hide *;
    if before == [] {
      assert before + y == y && before + z == z;
    } else {
      LineIsLocal(before, y);
      LineIsLocal(before, z);
      var l := FirstLine(before);
      SameBehind(l.rest, y, z, true, true);
      SameBehind(l.rest, y, z, false, true);
      SameFirstLine(before + y, before + z, l.text, l.rest + y, l.rest + z, inKey, ended);
    }
  }

  /** Two texts with the same first line, and rests that go on alike. */
  lemma SameFirstLine(t: string, u: string, text: string, restT: string, restU: string, inKey: bool, ended: bool)
    requires t != [] && FirstLine(t) == Line(text, restT, true) && u != [] && FirstLine(u) == Line(text, restU, true)
    requires Head(restT, true, true) == Head(restU, true, true) && Head(restT, false, true) == Head(restU, false, true)
    requires Tail(restT, true, true) == Tail(restU, true, true) && Tail(restT, false, true) == Tail(restU, false, true)
    ensures Head(t, inKey, ended) == Head(u, inKey, ended) && Tail(t, inKey, ended) == Tail(u, inKey, ended)
  {
    hide FirstLine, Begins, Ends;
  }

  /** Nothing between the lines that begin and end a key shows: any other body gives the same output. */
  lemma KeyBodiesDoNotShow(before: string, line: string, body: string, other: string, rest: string)
    requires Complete(before) && '\n' !in line && Begins(StripReturn(line)) && Quiet(body) && Quiet(other)
    ensures Redact(before + (line + (['\n'] + (body + rest)))) == Redact(before + (line + (['\n'] + (other + rest))))
  {
    var y, z := line + (['\n'] + (body + rest)), line + (['\n'] + (other + rest));
    hide Complete, Begins, Quiet, Head, Tail;
    forall k, e
      ensures Head(y, k, e) == Head(z, k, e) && Tail(y, k, e) == Tail(z, k, e)
    {
      KeyBlock(line, body, rest, k, e);
      KeyBlock(line, other, rest, k, e);
    }
    SameBehind(before, y, z, false, false);
  }

  // ----- One block in a text, character by character -----

  /** Nowhere in the text does the pattern stand. */
  ghost predicate Without(t: string, pattern: string) { forall i: nat :: !Redaction.StandsAt(t, pattern, i) }

  /** Text that begins no key and has no carriage returns. */
  ghost predicate Plain(t: string) { Without(t, "-----BEGIN ") && '\r' !in t }

  /** A line that begins, or ends, a key. */
  ghost predicate KeyLine(line: string, word: string) {
    '\n' !in line && !Without(line, word) && !Without(line, " PRIVATE KEY-----")
  }

  lemma StandsInWhole(t: string, pattern: string, i: nat, j: nat, k: nat)
    requires i <= j <= |t| && Redaction.StandsAt(t[i..j], pattern, k)
    ensures Redaction.StandsAt(t, pattern, i + k)
  {
    forall m | 0 <= m < |pattern|
      ensures t[i + k..i + k + |pattern|][m] == pattern[m]
    {
      assert t[i..j][k..k + |pattern|][m] == t[i + k + m];
    }
    assert t[i + k..i + k + |pattern|] == pattern;
  }

  lemma WithoutPart(t: string, pattern: string, i: nat, j: nat)
    requires Without(t, pattern) && i <= j <= |t|
    ensures Without(t[i..j], pattern)
  {
    if k: nat :| Redaction.StandsAt(t[i..j], pattern, k) {
      StandsInWhole(t, pattern, i, j, k);
      assert false;
    }
  }

  lemma PlainPart(t: string, i: nat, j: nat)
    requires Plain(t) && i <= j <= |t|
    ensures Plain(t[i..j]) && !Begins(t[i..j])
  {
    WithoutPart(t, "-----BEGIN ", i, j);
    Redaction.ContainsIff(t[i..j], "-----BEGIN ");
    assert forall k | 0 <= k < j - i :: t[i..j][k] == t[i + k] && t[i + k] in t;
    hide Redaction.StandsAt, Redaction.Contains;
  }

  /** The first line of a plain text. */
  lemma PlainLine(t: string)
    requires Plain(t) && t != []
    ensures var l := FirstLine(t);
            && !Begins(l.text) && Plain(l.rest) && (t[0] != '\n' ==> l.text != [])
            && t == if l.ended then l.text + (['\n'] + l.rest) else l.text
  {
    var n := NewlineAt(t);
    PlainPart(t, 0, n);
    assert t[0..n] == t[..n] && t[..|t|] == t;
    if n < |t| {
      PlainPart(t, n + 1, |t|);
      assert t[n + 1..|t|] == t[n + 1..];
    }
    hide Begins, Plain;
    assert StripReturn(t[..n]) == t[..n] by {
      NoReturn(t, n);
    }
    assert n < |t| ==> t == t[..n] + (['\n'] + t[n + 1..]);
  }

  lemma NoReturn(t: string, n: nat)
    requires Plain(t) && n <= |t|
    ensures StripReturn(t[..n]) == t[..n] && Plain([])
  {
    assert n > 0 ==> t[..n][n - 1] in t;
  }

  /** Behind something that was put out, plain text follows on a line of its own. */
  lemma {:induction false} PlainTail(t: string, ended: bool)
    requires Plain(t)
    ensures Tail(t, false, ended) == if t == [] then (if ended then "\n" else "") else ['\n'] + t
    decreases |t|
  {
    if t != [] {
      PlainLine(t);
      var l := FirstLine(t);
      hide FirstLine, Begins, Plain;
      PlainTail(l.rest, l.ended);
    }
  }

  /** Plain text that starts with something stays as it is. */
  lemma PlainStays(t: string)
    requires Plain(t) && (t != [] ==> t[0] != '\n')
    ensures Redact(t) == t
  {
    if t != [] {
      PlainLine(t);
      var l := FirstLine(t);
      hide FirstLine, Begins, Plain;
      PlainTail(l.rest, l.ended);
    }
  }

  /** The first of some whole plain lines, in front of anything. */
  lemma PlainFirst(before: string, y: string) returns (text: string, rest: string)
    requires Plain(before) && before != [] && EndsWithNewline(before)
    ensures before == text + (['\n'] + rest) && !Begins(text) && (before[0] != '\n' ==> text != [])
    ensures Plain(rest) && (rest != [] ==> EndsWithNewline(rest)) && |rest| < |before|
    ensures before + y != [] && FirstLine(before + y) == Line(text, rest + y, true)
  {
    PlainLine(before);
    LineIsLocal(before, y);
    text, rest := FirstLine(before).text, FirstLine(before).rest;
  }

  /** Whole plain lines in front of anything. */
  lemma {:induction false} PlainBefore(before: string, y: string)
    requires Plain(before) && before != [] && EndsWithNewline(before)
    ensures Tail(before + y, false, true) == ['\n'] + (before[..|before| - 1] + Tail(y, false, true))
    decreases |before|, 0
  {
    hide *;
    var text, rest := PlainFirst(before, y);
    PutOutLine(before + y, text, rest + y);
    PutTogether(before, text, rest, y);
  }

  /** The lines behind the first, and the first with them. */
  lemma PutTogether(before: string, text: string, rest: string, y: string)
    requires before == text + (['\n'] + rest) && Plain(rest) && (rest != [] ==> EndsWithNewline(rest))
    ensures text + Tail(rest + y, false, true) == before[..|before| - 1] + Tail(y, false, true)
    decreases |rest|, 1
  {
    hide *;
    if rest == [] {
      NothingLeft(before, text, y);
    } else {
      PlainBefore(rest, y);
      LinesJoin(before, text, rest, Tail(y, false, true));
    }
  }

  lemma PlainBeforeAll(before: string, y: string)
    requires Plain(before) && before != [] && EndsWithNewline(before) && before[0] != '\n'
    ensures Head(before + y, false, false) == before[..|before| - 1] + Tail(y, false, true)
  {
    hide *;
    var text, rest := PlainFirst(before, y);
    PutOutLine(before + y, text, rest + y);
    PutTogether(before, text, rest, y);
  }

  /** A line that begins no key is put out. */
  lemma PutOutLine(t: string, text: string, rest: string)
    requires t != [] && FirstLine(t) == Line(text, rest, true) && !Begins(text)
    ensures Tail(t, false, true) == ['\n'] + (text + Tail(rest, false, true))
    ensures text != [] ==> Head(t, false, false) == text + Tail(rest, false, true)
  {
  }

  lemma NothingLeft(before: string, text: string, y: string)
    requires before == text + (['\n'] + [])
    ensures [] + y == y && before[..|before| - 1] == text
  {
  }

  lemma LinesJoin(before: string, text: string, rest: string, z: string)
    requires rest != [] && before == text + (['\n'] + rest)
    ensures text + (['\n'] + (rest[..|rest| - 1] + z)) == before[..|before| - 1] + z
  {
  }

  lemma KeyLineBegins(line: string)
    requires KeyLine(line, "-----BEGIN ")
    ensures Begins(StripReturn(line))
  {
    StandsInStripped(line, "-----BEGIN ");
    StandsInStripped(line, " PRIVATE KEY-----");
  }

  lemma KeyLineEnds(line: string)
    requires KeyLine(line, "-----END ")
    ensures Ends(StripReturn(line))
  {
    StandsInStripped(line, "-----END ");
    StandsInStripped(line, " PRIVATE KEY-----");
  }

  lemma StandsInStripped(line: string, pattern: string)
    requires !Without(line, pattern) && pattern != [] && '\r' !in pattern
    ensures Redaction.Contains(StripReturn(line), pattern)
  {
    var s := StripReturn(line);
    Redaction.ContainsIff(s, pattern);
    hide Redaction.Contains;
    var i: nat :| Redaction.StandsAt(line, pattern, i);
    if i + |pattern| == |line| {
      assert line[|line| - 1] == pattern[|pattern| - 1];
    }
    assert s[i..i + |pattern|] == line[i..i + |pattern|];
    assert Redaction.StandsAt(s, pattern, i);
  }

  /** Whole lines that neither begin nor end a key. */
  ghost predicate KeyBody(body: string) {
    Complete(body) && Without(body, "-----BEGIN ") && Without(body, "-----END ")
  }

  lemma {:induction false} BodyIsQuiet(body: string)
    requires KeyBody(body)
    ensures Quiet(body)
    decreases |body|
  {
    if body != [] {
      var l, n := FirstLine(body), NewlineAt(body);
      LineIsLocal(body, []);
      WithoutPart(body, "-----BEGIN ", 0, |l.text|);
      WithoutPart(body, "-----END ", 0, |l.text|);
      assert l.text == body[0..|l.text|];
      Redaction.ContainsIff(l.text, "-----BEGIN ");
      Redaction.ContainsIff(l.text, "-----END ");
      WithoutPart(body, "-----BEGIN ", n + 1, |body|);
      WithoutPart(body, "-----END ", n + 1, |body|);
      assert l.rest == body[n + 1..|body|];
      BodyIsQuiet(l.rest);
    }
  }

  /** What follows the line that ends a key. */
  lemma KeyEnds(last: string, rest: string)
    requires KeyLine(last, "-----END ") && Without(last, "-----BEGIN ") && Plain(rest)
    ensures Tail(last + (['\n'] + rest), true, true) == ['\n'] + rest
  {
    KeyLineEnds(last);
    Redaction.ContainsIff(last, "-----BEGIN ");
    StripBeginsNothing(last);
    LineBack(last, ['\n'] + rest);
    PlainTail(rest, true);
    assert (['\n'] + rest)[1..] == rest;
    hide FirstLine, Begins, Ends, Plain, Without, KeyLine;
  }

  /**
   A private key between plain lines becomes one mark: its first line, whatever stands between and its last line go,
   and the text before and after stays as it is.
   */
  lemma KeyBlockIsReplaced(before: string, first: string, body: string, last: string, rest: string)
    requires Plain(before) && (before != [] ==> before[0] != '\n' && EndsWithNewline(before))
    requires KeyLine(first, "-----BEGIN ") && KeyBody(body)
    requires KeyLine(last, "-----END ") && Without(last, "-----BEGIN ") && Plain(rest)
    ensures Redact(before + (first + (['\n'] + (body + (last + (['\n'] + rest))))))
         == before + ("[REDACTED PRIVATE KEY]" + (['\n'] + rest))
  {
    var y := first + (['\n'] + (body + (last + (['\n'] + rest))));
    KeyLineBegins(first);
    BodyIsQuiet(body);
    KeyEnds(last, rest);
    NewlineFree(first);
    hide *;
    if before == [] {
      KeyBlock(first, body, last + (['\n'] + rest), false, false);
      NothingBefore(y, rest);
    } else {
      KeyBlock(first, body, last + (['\n'] + rest), false, true);
      PlainBeforeAll(before, y);
      MarkIs();
      MarkJoins(before, rest);
    }
  }

  lemma NewlineFree(line: string)
    requires KeyLine(line, "-----BEGIN ")
    ensures '\n' !in line
  {
  }

  lemma MarkIs()
    ensures MARK == "[REDACTED PRIVATE KEY]"
  {
  }

  lemma NothingBefore(y: string, rest: string)
    ensures [] + y == y && MARK == "[REDACTED PRIVATE KEY]" && Redact(y) == Head(y, false, false)
    ensures [] + (MARK + (['\n'] + rest)) == MARK + (['\n'] + rest)
  {
  }

  lemma MarkJoins(before: string, rest: string)
    requires before != [] && EndsWithNewline(before)
    ensures before[..|before| - 1] + (['\n'] + (MARK + (['\n'] + rest))) == before + (MARK + (['\n'] + rest))
    ensures forall t :: Redact(t) == Head(t, false, false)
  {
  }
}
