/**
 What redaction of `key = value` assignments guarantees: its output is a fixed point in which every
 sensitive assignment reads `[REDACTED]`, and the output does not depend on the values it masked.
 */
module RedactionLaws {
  import opened Wrappers
  import opened Redaction

  /** The previous character at a position of a text that itself follows `prevKey`. */
  predicate PrevAt(t: string, prevKey: bool, i: nat)
    requires i <= |t|
  {
    if i == 0 then prevKey else IsKeyChar(t[i - 1])
  }

  predicate StartsWithKeyChar(t: string) { t != [] && IsKeyChar(t[0]) }

  // ----- Spans -----

  /** A span that ends inside `x`, or at its end for a visible reason, is the same before any other rest. */
  lemma SpanIsLocal(x: string, y: string, z: string, cl: Class)
    requires Span(x + y, cl) < |x| || (Span(x + y, cl) == |x| && (z == [] || !Matches(cl, z[0])))
    ensures Span(x + z, cl) == Span(x + y, cl)
  {
    hide Span;
    var n := Span(x + y, cl);
    SpanIs(x + y, cl, n);
    SpanIs(x + z, cl, n);
    assert forall i | 0 <= i < |x| :: (x + y)[i] == x[i] == (x + z)[i];
  }

  // ----- Outside assignments the scan copies -----

  lemma CopiesOne(t: string, prevKey: bool)
    requires t != [] && AssignmentAt(t, prevKey) == None
    ensures Redact(t, prevKey) == t[..1] + Redact(t[1..], IsKeyChar(t[0]))
  {
    hide AssignmentAt, IsKeyChar;
  }

  lemma NoKeyNoAssignment(t: string, prevKey: bool)
    requires prevKey || !StartsWithKeyChar(t)
    ensures AssignmentAt(t, prevKey) == None
  {
  }

  /** Whether the scan stands inside a word matters only to a text that goes on with the word. */
  lemma FlagMatters(t: string, p: bool, q: bool)
    requires !StartsWithKeyChar(t)
    ensures Redact(t, p) == Redact(t, q)
  {
    hide AssignmentAt, ValueLength;
    NoKeyNoAssignment(t, p);
    NoKeyNoAssignment(t, q);
  }

  predicate OneWord(t: string, n: nat)
    requires n <= |t|
  {
    forall i | 0 < i < n :: IsKeyChar(t[i - 1]) || !IsKeyChar(t[i])
  }

  /** Where no assignment starts and no second word, the scan copies. */
  lemma {:induction false} CopiesOneWord(t: string, prevKey: bool, n: nat)
    requires 0 < n <= |t| && OneWord(t, n)
    requires AssignmentAt(t, prevKey) == None
    ensures Redact(t, prevKey) == t[..n] + Redact(t[n..], IsKeyChar(t[n - 1]))
  {
    hide AssignmentAt, IsKeyChar, Redact;
    CopiesOne(t, prevKey);
    if n > 1 {
      var rest := t[1..];
      assert IsKeyChar(t[0]) || !IsKeyChar(t[1]);
      NoKeyNoAssignment(rest, IsKeyChar(t[0]));
      assert forall i | 0 <= i < |rest| :: rest[i] == t[i + 1];
      CopiesOneWord(rest, IsKeyChar(t[0]), n - 1);
      assert t[..n] == t[..1] + rest[..n - 1] && t[n..] == rest[n - 1..];
    }
  }

  lemma FirstChar(t: string, prevKey: bool)
    ensures t == [] <==> Redact(t, prevKey) == []
    ensures t != [] ==> Redact(t, prevKey)[0] == t[0]
  {
    hide AssignmentAt, ValueLength;
  }

  // ----- How far an assignment is looked for -----

  /** The position whose character settles what `OpeningOf` answers. */
  function OpeningDecidedAt(u: string): (n: nat)
    ensures n <= |u|
  {
    var mark := Span(u, Spaces);
    if mark == |u| || (u[mark] != '=' && u[mark] != ':') then mark else mark + 1 + Span(u[mark + 1..], Spaces)
  }

  /** The position whose character settles what `AssignmentAt` answers. */
  function DecidedAt(t: string, prevKey: bool): (n: nat)
    ensures n <= |t|
  {
    var keyEnd := Span(t, KeyChars);
    if prevKey || keyEnd == 0 || !IsSensitiveKey(t[..keyEnd]) then keyEnd
    else keyEnd + OpeningDecidedAt(t[keyEnd..])
  }

  lemma DropConcat(x: string, y: string, i: nat)
    requires i <= |x|
    ensures (x + y)[i..] == x[i..] + y && (x + y)[..i] == x[..i]
  {
  }

  /** `y` and `z` start alike as far as a decision about their first character goes. */
  predicate StartAlike(y: string, z: string, unquoted: bool) {
    y != [] && z != [] &&
    (y[0] == z[0] || (unquoted && !IsSpace(z[0]) && z[0] != '"' && z[0] != '\''))
  }

  lemma OpeningIsLocal(x: string, y: string, z: string)
    requires OpeningDecidedAt(x + y) <= |x|
    requires OpeningDecidedAt(x + y) == |x| ==>
               StartAlike(y, z, OpeningOf(x + y).Some? && OpeningOf(x + y).value.quote == None)
    ensures OpeningOf(x + z) == OpeningOf(x + y) && OpeningDecidedAt(x + z) == OpeningDecidedAt(x + y)
  {
    hide Span;
    var mark := Span(x + y, Spaces);
    SpanIs(x + y, Spaces, mark);
    SpanIsLocal(x, y, z, Spaces);
    if mark < |x| && ((x + y)[mark] == '=' || (x + y)[mark] == ':') {
      DropConcat(x, y, mark + 1);
      DropConcat(x, z, mark + 1);
      SpanIs(x[mark + 1..] + y, Spaces, Span(x[mark + 1..] + y, Spaces));
      SpanIsLocal(x[mark + 1..], y, z, Spaces);
    }
  }

  /** The answer does not depend on what follows the deciding character. */
  lemma AssignmentIsLocal(x: string, y: string, z: string, prevKey: bool)
    requires DecidedAt(x + y, prevKey) <= |x|
    requires DecidedAt(x + y, prevKey) == |x| ==>
               StartAlike(y, z, AssignmentAt(x + y, prevKey).Some? && AssignmentAt(x + y, prevKey).value.quote == None)
    ensures AssignmentAt(x + z, prevKey) == AssignmentAt(x + y, prevKey)
    ensures DecidedAt(x + z, prevKey) == DecidedAt(x + y, prevKey)
  {
    hide Span, IsSensitiveKey, OpeningOf, OpeningDecidedAt;
    var keyEnd := Span(x + y, KeyChars);
    SpanIs(x + y, KeyChars, keyEnd);
    KeyIsLocal(x, y, z, prevKey);
    DropConcat(x, y, keyEnd);
    DropConcat(x, z, keyEnd);
    if !prevKey && keyEnd > 0 && IsSensitiveKey((x + y)[..keyEnd]) {
      OpeningIsLocal(x[keyEnd..], y, z);
    }
  }

  lemma KeyIsLocal(x: string, y: string, z: string, prevKey: bool)
    requires DecidedAt(x + y, prevKey) <= |x|
    requires DecidedAt(x + y, prevKey) == |x| ==>
               StartAlike(y, z, AssignmentAt(x + y, prevKey).Some? && AssignmentAt(x + y, prevKey).value.quote == None)
    ensures Span(x + z, KeyChars) == Span(x + y, KeyChars) <= |x|
  {
    hide Span, IsSensitiveKey;
    var keyEnd := Span(x + y, KeyChars);
    SpanIs(x + y, KeyChars, keyEnd);
    if keyEnd == |x| {
      assert y[0] == (x + y)[keyEnd];
    }
    SpanIsLocal(x, y, z, KeyChars);
  }

  /** Likewise for a value that ends before a word begins. */
  lemma ValueIsLocal(v: string, y: string, z: string, quote: Option<char>, key: string)
    requires StartsWithKeyChar(y) && z != [] && y[0] == z[0]
    requires quote.Some? ==> !IsKeyChar(quote.value)
    requires ValueLength(v + y, quote, key) <= |v|
    ensures ValueLength(v + z, quote, key) == ValueLength(v + y, quote, key)
  {
    hide Span, IsAuthHeaderLikeKey, IsCookieHeaderLikeKey, IsAuthScheme;
    if quote.Some? {
      SpanIs(v + y, Except(quote.value), Span(v + y, Except(quote.value)));
      SpanIsLocal(v, y, z, Except(quote.value));
    } else if IsCookieHeaderLikeKey(key) {
      SpanIs(v + y, LineChars, Span(v + y, LineChars));
      SpanIsLocal(v, y, z, LineChars);
    } else {
      var first := Span(v + y, TokenChars);
      SpanIs(v + y, TokenChars, first);
      SpanIsLocal(v, y, z, TokenChars);
      DropConcat(v, y, first);
      DropConcat(v, z, first);
      if IsAuthHeaderLikeKey(key) && IsAuthScheme(v[..first]) {
        CredentialIsLocal(v[first..], y, z);
      }
    }
  }

  lemma CredentialIsLocal(v: string, y: string, z: string)
    requires StartsWithKeyChar(y) && z != [] && y[0] == z[0]
    requires var next := Span(v + y, InlineSpaces);
             var credential := Span((v + y)[next..], TokenChars);
             credential == 0 || next + credential <= |v|
    ensures Span(v + z, InlineSpaces) == Span(v + y, InlineSpaces)
    ensures Span((v + z)[Span(v + z, InlineSpaces)..], TokenChars)
          == Span((v + y)[Span(v + y, InlineSpaces)..], TokenChars)
  {
    hide Span;
    var next := Span(v + y, InlineSpaces);
    SpanIs(v + y, InlineSpaces, next);
    SpanIs((v + y)[next..], TokenChars, Span((v + y)[next..], TokenChars));
    assert (v + y)[|v|..] == y && (v + y)[|v|] == y[0];
    assert next < |v|;
    SpanIsLocal(v, y, z, InlineSpaces);
    DropConcat(v, y, next);
    DropConcat(v, z, next);
    SpanIs(v[next..] + y, TokenChars, Span(v[next..] + y, TokenChars));
    SpanIsLocal(v[next..], y, z, TokenChars);
  }

  // ----- What is not an assignment does not become one -----

  lemma PlainUntilOpening(u: string, i: nat)
    requires i < OpeningDecidedAt(u)
    ensures !IsKeyChar(u[i])
  {
    hide Span;
    var mark := Span(u, Spaces);
    SpanIs(u, Spaces, mark);
    if i > mark {
      SpanIs(u[mark + 1..], Spaces, Span(u[mark + 1..], Spaces));
      assert u[i] == u[mark + 1..][i - mark - 1];
    } else if i < mark {
      assert Matches(Spaces, u[i]);
    }
  }

  lemma PlainUntilDecided(t: string, prevKey: bool, i: nat)
    requires Span(t, KeyChars) <= i < DecidedAt(t, prevKey)
    ensures !IsKeyChar(t[i])
  {
    hide Span, OpeningDecidedAt, IsSensitiveKey;
    var keyEnd := Span(t, KeyChars);
    PlainUntilOpening(t[keyEnd..], i - keyEnd);
  }

  lemma OneWordUntilDecided(t: string, prevKey: bool, i: nat)
    requires 0 < i < DecidedAt(t, prevKey)
    ensures IsKeyChar(t[i - 1]) || !IsKeyChar(t[i])
  {
    hide DecidedAt, Span;
    SpanIs(t, KeyChars, Span(t, KeyChars));
    if i - 1 < Span(t, KeyChars) {
      assert Matches(KeyChars, t[i - 1]);
    } else {
      PlainUntilDecided(t, prevKey, i);
    }
  }

  lemma CopiesUntilDecided(t: string)
    requires StartsWithKeyChar(t) && AssignmentAt(t, false) == None
    ensures var n := DecidedAt(t, false);
            n > 0 && Redact(t, false) == t[..n] + Redact(t[n..], IsKeyChar(t[n - 1]))
  {
    var n := DecidedAt(t, false);
    assert 0 < Span(t, KeyChars) <= n;
    hide *;
    forall i | 0 < i < n
      ensures IsKeyChar(t[i - 1]) || !IsKeyChar(t[i])
    {
      OneWordUntilDecided(t, false, i);
    }
    CopiesOneWord(t, false, n);
  }

  lemma NoneStaysNone(t: string, prevKey: bool)
    requires AssignmentAt(t, prevKey) == None
    ensures AssignmentAt(Redact(t, prevKey), prevKey) == None
  {
    hide AssignmentAt, DecidedAt, Redact;
    FirstChar(t, prevKey);
    if prevKey || !StartsWithKeyChar(t) {
      NoKeyNoAssignment(Redact(t, prevKey), prevKey);
    } else {
      CopiesUntilDecided(t);
      var n := DecidedAt(t, false);
      var rest := Redact(t[n..], IsKeyChar(t[n - 1]));
      FirstChar(t[n..], IsKeyChar(t[n - 1]));
      assert t[..n] + t[n..] == t;
      if n < |t| {
        AssignmentIsLocal(t[..n], t[n..], rest, false);
      } else {
        assert rest == [] && Redact(t, false) == t;
      }
    }
  }

  // ----- What was masked reads as masked -----

  lemma MaskedValue(v: string, quote: Option<char>, key: string, rest: string)
    requires quote.Some? ==> quote.value == '"' || quote.value == '\''
    requires var n := ValueLength(v, quote, key);
             if n < |v| then rest != [] && rest[0] == v[n] else rest == []
    ensures ValueLength(REDACTED + rest, quote, key) == |REDACTED| && !StartsWithKeyChar(rest)
  {
    hide Span, IsAuthHeaderLikeKey, IsCookieHeaderLikeKey;
    var cl := if quote.Some? then Except(quote.value) else if IsCookieHeaderLikeKey(key) then LineChars else TokenChars;
    ValueStops(v, quote, key);
    assert forall c | c in REDACTED :: Matches(cl, c);
    assert forall i | 0 <= i < |REDACTED| :: (REDACTED + rest)[i] == REDACTED[i] && REDACTED[i] in REDACTED;
    SpanIs(REDACTED + rest, cl, |REDACTED|);
    assert (REDACTED + rest)[..|REDACTED|] == REDACTED;
    assert !IsAuthScheme(REDACTED);
  }

  lemma ValueStops(v: string, quote: Option<char>, key: string)
    ensures var n := ValueLength(v, quote, key);
            var cl := if quote.Some? then Except(quote.value) else ValueClass(key);
            n < |v| ==> !Matches(cl, v[n])
  {
    hide Span, IsAuthHeaderLikeKey, IsCookieHeaderLikeKey, IsAuthScheme;
    if quote.Some? {
      SpanIs(v, Except(quote.value), Span(v, Except(quote.value)));
    } else if IsCookieHeaderLikeKey(key) {
      SpanIs(v, LineChars, Span(v, LineChars));
    } else {
      var first := Span(v, TokenChars);
      SpanIs(v, TokenChars, first);
      var next := first + Span(v[first..], InlineSpaces);
      SpanIs(v[next..], TokenChars, Span(v[next..], TokenChars));
    }
  }

  lemma OpeningFacts(u: string)
    requires OpeningOf(u).Some?
    ensures var opening := OpeningOf(u).value;
            match opening.quote
            case Some(q) => OpeningDecidedAt(u) == opening.at - 1 && u[opening.at - 1] == q && (q == '"' || q == '\'')
            case None => OpeningDecidedAt(u) == opening.at < |u| && !IsSpace(u[opening.at])
                         && u[opening.at] != '"' && u[opening.at] != '\''
  {
    hide Span;
    var mark := Span(u, Spaces);
    SpanIs(u[mark + 1..], Spaces, Span(u[mark + 1..], Spaces));
  }

  lemma AssignmentFacts(t: string, prevKey: bool)
    requires AssignmentAt(t, prevKey).Some?
    ensures var a := AssignmentAt(t, prevKey).value;
            && !prevKey && StartsWithKeyChar(t) && a.keyEnd == Span(t, KeyChars)
            && match a.quote
               case Some(q) =>
                 DecidedAt(t, prevKey) == a.valueStart - 1 && t[a.valueStart - 1] == q && (q == '"' || q == '\'')
               case None => DecidedAt(t, prevKey) == a.valueStart < |t| && !IsSpace(t[a.valueStart])
                            && t[a.valueStart] != '"' && t[a.valueStart] != '\''
  {
    hide IsSensitiveKey, Span, OpeningOf, OpeningDecidedAt, IsSpace;
    SpanIs(t, KeyChars, 0);
    OpeningFacts(t[Span(t, KeyChars)..]);
  }

  /** The text after the value a round masks, and what becomes of it. */
  function AfterValue(t: string, prevKey: bool): string
    requires t != []
  {
    var taken := ScanOnce(t, prevKey).taken;
    Redact(t[taken..], IsKeyChar(t[taken - 1]))
  }

  lemma MaskedOutput(t: string, prevKey: bool)
    requires AssignmentAt(t, prevKey).Some?
    ensures var a := AssignmentAt(t, prevKey).value;
            && t != [] && Redact(t, prevKey) == t[..a.valueStart] + (REDACTED + AfterValue(t, prevKey))
  {
    hide AssignmentAt, ValueLength, IsKeyChar;
    var a := AssignmentAt(t, prevKey).value;
    assert (t[..a.valueStart] + REDACTED) + AfterValue(t, prevKey)
          == t[..a.valueStart] + (REDACTED + AfterValue(t, prevKey));
  }

  /** After a masked value comes no word, so its mask is read back in full. */
  lemma MaskedValueEnds(t: string, prevKey: bool)
    requires AssignmentAt(t, prevKey).Some?
    ensures var a := AssignmentAt(t, prevKey).value;
            && t != [] && !StartsWithKeyChar(AfterValue(t, prevKey))
            && ValueLength(REDACTED + AfterValue(t, prevKey), a.quote, t[..a.keyEnd]) == |REDACTED|
  {
    hide AssignmentAt, ValueLength, Redact, DecidedAt, IsSpace, IsKeyChar;
    AssignmentFacts(t, prevKey);
    var a := AssignmentAt(t, prevKey).value;
    var v := t[a.valueStart..];
    var length := ValueLength(v, a.quote, t[..a.keyEnd]);
    var taken := a.valueStart + length;
    FirstChar(t[taken..], IsKeyChar(t[taken - 1]));
    assert taken < |t| ==> t[taken..][0] == v[length];
    MaskedValue(v, a.quote, t[..a.keyEnd], AfterValue(t, prevKey));
  }

  /** A round that masks a value would do the same on its own output. */
  lemma MaskedRound(t: string, prevKey: bool)
    requires AssignmentAt(t, prevKey).Some?
    ensures var a := AssignmentAt(t, prevKey).value;
            var o := Redact(t, prevKey);
            var n := a.valueStart + |REDACTED|;
            && |o| >= n && o[..n] == t[..a.valueStart] + REDACTED && o[n..] == AfterValue(t, prevKey)
            && AssignmentAt(o, prevKey) == Some(a)
            && ScanOnce(o, prevKey) == Round(n, o[..n])
  {
    hide AssignmentAt, ValueLength, Redact, AfterValue, IsKeyChar;
    var a := AssignmentAt(t, prevKey).value;
    var v := t[a.valueStart..];
    var o := Redact(t, prevKey);
    var tail := REDACTED + AfterValue(t, prevKey);
    MaskedOutput(t, prevKey);
    MaskedValueEnds(t, prevKey);
    AssignmentFacts(t, prevKey);
    assert t[..a.valueStart] + v == t;
    AssignmentIsLocal(t[..a.valueStart], v, tail, prevKey);
    assert o[..a.keyEnd] == t[..a.keyEnd] && o[a.valueStart..] == tail;
  }

  // ----- The fixed point -----

  /** A second pass changes nothing. */
  lemma {:induction false} RedactIsFixedPoint(t: string, prevKey: bool)
    ensures Redact(Redact(t, prevKey), prevKey) == Redact(t, prevKey)
    decreases |t|
  {
    hide AssignmentAt, ValueLength, Redact;
    if t == [] {
      FirstChar(t, prevKey);
    } else {
      var o := Redact(t, prevKey);
      var taken := ScanOnce(t, prevKey).taken;
      RedactIsFixedPoint(t[taken..], IsKeyChar(t[taken - 1]));
      match AssignmentAt(t, prevKey)
      case None =>
        NoneStaysNone(t, prevKey);
        CopiesOne(t, prevKey);
        CopiesOne(o, prevKey);
        assert o[1..] == Redact(t[1..], IsKeyChar(t[0]));
      case Some(a) =>
        MaskedRound(t, prevKey);
        MaskedValueEnds(t, prevKey);
        FlagMatters(AfterValue(t, prevKey), false, IsKeyChar(t[taken - 1]));
        RedactOnce(o, prevKey);
    }
  }

  lemma RedactOnce(t: string, prevKey: bool)
    requires t != []
    ensures var round := ScanOnce(t, prevKey);
            Redact(t, prevKey) == round.output + Redact(t[round.taken..], IsKeyChar(t[round.taken - 1]))
  {
    hide ScanOnce;
  }

  /** An assignment found at position `i` of a text that follows `prevKey` has its value masked. */
  predicate MaskedAt(t: string, prevKey: bool, i: nat)
    requires i < |t|
  {
    match AssignmentAt(t[i..], PrevAt(t, prevKey, i))
    case None => true
    case Some(a) =>
      var value := t[i + a.valueStart..];
      value[..ValueLength(value, a.quote, t[i..i + a.keyEnd])] == REDACTED
  }

  lemma NoSensitiveMask()
    ensures !IsSensitiveKey("REDACTED")
  {
    assert Normalized("REDACTED") == "redacted";
    forall k | 0 <= k < |SENSITIVE_KEYS|
      ensures !Contains("redacted", SENSITIVE_KEYS[k])
    {
      hide Contains;
      ContainsMeans("redacted", SENSITIVE_KEYS[k]);
      HasForeignLetter(k);
    }
  }

  /** Every sensitive key has a letter that the mask lacks. */
  lemma HasForeignLetter(k: nat)
    requires k < |SENSITIVE_KEYS|
    ensures exists c :: c in SENSITIVE_KEYS[k] && c !in "redacted"
  {
    var c := SENSITIVE_KEYS[k][if k in {0, 3, 9} then 1 else if k == 2 then 5 else 0];
    assert c == "ubnoippsso"[k];
    assert c in SENSITIVE_KEYS[k] && c !in "redacted";
  }

  lemma {:induction false} ContainsMeans(t: string, pattern: string)
    ensures Contains(t, pattern) ==> forall c | c in pattern :: c in t
  {
    if t != [] {
      ContainsMeans(t[1..], pattern);
    }
  }

  lemma InsideMask(rest: string, j: nat)
    requires j < |REDACTED|
    ensures AssignmentAt((REDACTED + rest)[j..], j > 0 && IsKeyChar(REDACTED[j - 1])) == None
  {
    var t := (REDACTED + rest)[j..];
    assert t[0] == REDACTED[j];
    if j == 1 {
      assert forall i | 0 <= i < 9 :: t[i] == "REDACTED]"[i];
      assert forall i | 0 <= i < 8 :: IsKeyChar("REDACTED]"[i]);
      SpanIs(t, KeyChars, 8);
      assert t[..8] == "REDACTED";
      NoSensitiveMask();
    } else if j > 1 {
      assert IsKeyChar(REDACTED[j - 1]);
    }
  }

  /** Behind the start of a masked assignment, up to the end of its mask, no assignment starts. */
  lemma InsideRound(t: string, prevKey: bool, i: nat)
    requires AssignmentAt(t, prevKey).Some?
    requires 0 < i < AssignmentAt(t, prevKey).value.valueStart + |REDACTED|
    ensures i < |Redact(t, prevKey)|
    ensures AssignmentAt(Redact(t, prevKey)[i..], PrevAt(Redact(t, prevKey), prevKey, i)) == None
  {
    hide AssignmentAt, ValueLength, Redact, AfterValue, DecidedAt;
    var v := AssignmentAt(t, prevKey).value.valueStart;
    var o := Redact(t, prevKey);
    var mask := REDACTED + AfterValue(t, prevKey);
    MaskedOutput(t, prevKey);
    AssignmentFacts(t, prevKey);
    if i < v {
      if i < DecidedAt(t, prevKey) {
        OneWordUntilDecided(t, false, i);
      }
      NoKeyNoAssignment(o[i..], IsKeyChar(o[i - 1]));
    } else {
      InsideMask(AfterValue(t, prevKey), i - v);
      assert o[i..] == mask[i - v..];
      assert i > v ==> o[i - 1] == REDACTED[i - v - 1];
      if i == v {
        NoKeyNoAssignment(o[i..], IsKeyChar(o[i - 1]));
      }
    }
  }

  lemma MaskedFurtherOn(o: string, prevKey: bool, n: nat, i: nat)
    requires 0 < n <= i < |o|
    requires MaskedAt(o[n..], IsKeyChar(o[n - 1]), i - n)
    ensures MaskedAt(o, prevKey, i)
  {
    hide AssignmentAt, ValueLength;
    Slices(o, n, i);
    match AssignmentAt(o[i..], PrevAt(o, prevKey, i))
    case None =>
    case Some(a) =>
      Slices(o, n, i + a.valueStart);
      assert o[n..][i - n..i - n + a.keyEnd] == o[i..i + a.keyEnd];
  }

  /** Wherever one looks in the output, a sensitive assignment reads `[REDACTED]`. */
  lemma {:induction false} OutputIsMasked(t: string, prevKey: bool, i: nat)
    requires i < |Redact(t, prevKey)|
    ensures MaskedAt(Redact(t, prevKey), prevKey, i)
    decreases |t|
  {
    hide AssignmentAt, ValueLength, Redact, MaskedAt;
    FirstChar(t, prevKey);
    var o := Redact(t, prevKey);
    var taken := ScanOnce(t, prevKey).taken;
    match AssignmentAt(t, prevKey)
    case None =>
      CopiesOne(t, prevKey);
      assert o[1..] == Redact(t[1..], IsKeyChar(t[0]));
      if i == 0 {
        NoneStaysNone(t, prevKey);
        NoneIsMasked(o, prevKey, 0);
      } else {
        OutputIsMasked(t[1..], IsKeyChar(t[0]), i - 1);
        MaskedFurtherOn(o, prevKey, 1, i);
      }
    case Some(a) =>
      var n := a.valueStart + |REDACTED|;
      MaskedRound(t, prevKey);
      if i == 0 {
        FirstIsMasked(t, prevKey);
      } else if i < n {
        InsideRound(t, prevKey, i);
        NoneIsMasked(o, prevKey, i);
      } else {
        MaskedValueEnds(t, prevKey);
        var flag := IsKeyChar(t[taken - 1]);
        OutputIsMasked(t[taken..], flag, i - n);
        FirstFlagIsFree(o[n..], flag, IsKeyChar(o[n - 1]), i - n);
        MaskedFurtherOn(o, prevKey, n, i);
      }
  }

  lemma NoneIsMasked(t: string, prevKey: bool, i: nat)
    requires i < |t| && AssignmentAt(t[i..], PrevAt(t, prevKey, i)) == None
    ensures MaskedAt(t, prevKey, i)
  {
  }

  lemma FirstFlagIsFree(t: string, p: bool, q: bool, i: nat)
    requires i < |t| && MaskedAt(t, p, i) && !StartsWithKeyChar(t)
    ensures MaskedAt(t, q, i)
  {
    hide AssignmentAt, ValueLength;
    if i == 0 {
      NoKeyNoAssignment(t[0..], q);
    }
  }

  lemma FirstIsMasked(t: string, prevKey: bool)
    requires AssignmentAt(t, prevKey).Some?
    ensures Redact(t, prevKey) != [] && MaskedAt(Redact(t, prevKey), prevKey, 0)
  {
    hide AssignmentAt, ValueLength, Redact, AfterValue;
    MaskedRound(t, prevKey);
    MaskedOutput(t, prevKey);
    MaskedValueEnds(t, prevKey);
    var a := AssignmentAt(t, prevKey).value;
    var o := Redact(t, prevKey);
    assert o[0..] == o && o[..a.keyEnd] == t[..a.keyEnd];
    assert o[a.valueStart..] == REDACTED + AfterValue(t, prevKey);
  }

  // ----- Non-interference -----

  /** The scan of `t` comes to stand at position `i`. */
  predicate Reaches(t: string, prevKey: bool, i: nat)
    requires i <= |t|
    decreases |t|
  {
    i == 0 ||
    var taken := ScanOnce(t, prevKey).taken;
    taken <= i && Reaches(t[taken..], IsKeyChar(t[taken - 1]), i - taken)
  }

  /** A sensitive key with an opening quote, as it stands in a text: nothing of the value yet. */
  predicate OpensQuotedValue(head: string, quote: char) {
    && quote in {'"', '\''}
    && AssignmentAt(head, false).Some?
    && AssignmentAt(head, false).value.valueStart == |head|
    && AssignmentAt(head, false).value.quote == Some(quote)
  }

  predicate IsValue(value: string, rest: string, quote: char) {
    quote !in value && (rest == [] || rest[0] == quote)
  }

  /** What a quoted value is replaced by does not depend on the value. */
  lemma QuotedValueRound(head: string, quote: char, value: string, rest: string)
    requires OpensQuotedValue(head, quote) && IsValue(value, rest, quote)
    ensures Redact(head + (value + rest), false) == head + REDACTED + Redact(rest, false)
  {
    hide AssignmentAt, Redact, Span;
    AssignmentFacts(head, false);
    var t := head + (value + rest);
    assert head + [] == head;
    AssignmentIsLocal(head, [], value + rest, false);
    var n := Span(value + rest, Except(quote));
    assert forall i | 0 <= i < |value| :: (value + rest)[i] == value[i] && value[i] in value;
    SpanIs(value + rest, Except(quote), |value|);
    assert t[|head|..] == value + rest && t[..|head|] == head && t[|head + value|..] == rest;
    RedactOnce(t, false);
    FlagMatters(rest, IsKeyChar(t[|head + value| - 1]), false);
  }

  /** A round that ends before a word goes the same whatever follows the word's first character. */
  lemma RoundIsLocal(p: string, y: string, z: string, prevKey: bool)
    requires p != [] && StartsWithKeyChar(y) && z != [] && y[0] == z[0]
    requires !IsKeyChar(p[|p| - 1])
    requires ScanOnce(p + y, prevKey).taken <= |p|
    ensures ScanOnce(p + z, prevKey) == ScanOnce(p + y, prevKey)
  {
    hide AssignmentAt, ValueLength, DecidedAt;
    if DecidedAt(p + y, prevKey) > |p| {
      OneWordUntilDecided(p + y, prevKey, |p|);
      assert false;
    }
    AssignmentIsLocal(p, y, z, prevKey);
    match AssignmentAt(p + y, prevKey)
    case None =>
    case Some(a) =>
      AssignmentFacts(p + y, prevKey);
      DropConcat(p, y, a.keyEnd);
      DropConcat(p, z, a.keyEnd);
      DropConcat(p, y, a.valueStart);
      DropConcat(p, z, a.valueStart);
      ValueIsLocal(p[a.valueStart..], y, z, a.quote, p[..a.keyEnd]);
  }

  /** The scan runs up to the key the same way, whatever the value. */
  lemma {:induction false} SameBehind(p: string, y: string, z: string, prevKey: bool)
    requires StartsWithKeyChar(y) && z != [] && y[0] == z[0] && Redact(y, false) == Redact(z, false)
    requires !PrevAt(p, prevKey, |p|)
    requires Reaches(p + y, prevKey, |p|)
    ensures Redact(p + y, prevKey) == Redact(p + z, prevKey)
    decreases |p|
  {
    hide AssignmentAt, ScanOnce, Redact, IsKeyChar;
    if p == [] {
      assert p + y == y && p + z == z;
    } else {
      var taken := ScanOnce(p + y, prevKey).taken;
      RoundIsLocal(p, y, z, prevKey);
      DropConcat(p, y, taken);
      DropConcat(p, z, taken);
      SameBehind(p[taken..], y, z, IsKeyChar(p[taken - 1]));
      RedactOnce(p + y, prevKey);
      RedactOnce(p + z, prevKey);
    }
  }

  /** A quoted assignment found in a text, taken apart. */
  lemma QuotedParts(t: string, prevKey: bool)
    requires AssignmentAt(t, prevKey).Some? && AssignmentAt(t, prevKey).value.quote.Some?
    ensures var a := AssignmentAt(t, prevKey).value;
            var end := a.valueStart + ValueLength(t[a.valueStart..], a.quote, t[..a.keyEnd]);
            && !prevKey
            && OpensQuotedValue(t[..a.valueStart], a.quote.value)
            && IsValue(t[a.valueStart..end], t[end..], a.quote.value)
  {
    hide AssignmentAt, Span;
    var a := AssignmentAt(t, prevKey).value;
    var head, tail := t[..a.valueStart], t[a.valueStart..];
    var length := Span(tail, Except(a.quote.value));
    AssignmentFacts(t, prevKey);
    assert t == head + tail && head == head + [];
    AssignmentIsLocal(head, tail, [], false);
    SpanIs(tail, Except(a.quote.value), length);
    Slices(t, a.valueStart, a.valueStart + length);
    assert forall j | 0 <= j < length :: tail[..length][j] == tail[j];
    assert length < |tail| ==> t[a.valueStart + length..][0] == tail[length];
  }

  /** Where the value of an assignment ends. */
  function ValueEndAt(t: string, prevKey: bool): (n: nat)
    requires AssignmentAt(t, prevKey).Some?
    ensures AssignmentAt(t, prevKey).value.valueStart <= n <= |t|
  {
    var a := AssignmentAt(t, prevKey).value;
    a.valueStart + ValueLength(t[a.valueStart..], a.quote, t[..a.keyEnd])
  }

  /** The text with another value in place of the one found at its start. */
  function WithValue(t: string, prevKey: bool, other: string): string
    requires AssignmentAt(t, prevKey).Some?
  {
    t[..AssignmentAt(t, prevKey).value.valueStart] + (other + t[ValueEndAt(t, prevKey)..])
  }

  lemma QuotedPartsBoth(t: string, other: string)
    requires AssignmentAt(t, false).Some? && AssignmentAt(t, false).value.quote.Some?
    requires AssignmentAt(t, false).value.quote.value !in other
    ensures var a, end := AssignmentAt(t, false).value, ValueEndAt(t, false);
            && OpensQuotedValue(t[..a.valueStart], a.quote.value)
            && IsValue(t[a.valueStart..end], t[end..], a.quote.value) && IsValue(other, t[end..], a.quote.value)
  {
    hide AssignmentAt, ValueLength, OpensQuotedValue;
    QuotedParts(t, false);
  }

  lemma WithValueIs(t: string, other: string)
    requires AssignmentAt(t, false).Some?
    ensures WithValue(t, false, other)
         == t[..AssignmentAt(t, false).value.valueStart] + (other + t[ValueEndAt(t, false)..])
  {
    hide AssignmentAt, ValueEndAt;
  }

  lemma QuotedValueReplaced(t: string, other: string)
    requires AssignmentAt(t, false).Some? && AssignmentAt(t, false).value.quote.Some?
    requires AssignmentAt(t, false).value.quote.value !in other
    ensures Redact(WithValue(t, false, other), false) == Redact(t, false)
  {
    hide *;
    QuotedPartsBoth(t, other);
    var a := AssignmentAt(t, false).value;
    var end := ValueEndAt(t, false);
    var head, value, rest := t[..a.valueStart], t[a.valueStart..end], t[end..];
    ThreeParts(t, a.valueStart, end);
    QuotedValueRound(head, a.quote.value, value, rest);
    QuotedValueRound(head, a.quote.value, other, rest);
    WithValueIs(t, other);
  }

  /**
   When the scan reaches a sensitive key with a quoted value, any other value free of that quote gives the
   same output: nothing of the value shows.
   */
  lemma QuotedValuesDoNotShow(before: string, t: string, prevKey: bool, other: string)
    requires Reaches(before + t, prevKey, |before|)
    requires var found := AssignmentAt(t, PrevAt(before, prevKey, |before|));
             found.Some? && found.value.quote.Some? && found.value.quote.value !in other
    ensures Redact(before + WithValue(t, PrevAt(before, prevKey, |before|), other), prevKey)
          == Redact(before + t, prevKey)
  {
    AssignmentFacts(t, PrevAt(before, prevKey, |before|));
    hide AssignmentAt, Redact, Reaches, ValueEndAt;
    QuotedValueReplaced(t, other);
    SameBehind(before, t, WithValue(t, false, other), prevKey);
  }

  // ----- Values without quotes -----

  /** What an unquoted value of a key runs through: a line for cookies, else a token. */
  function ValueClass(key: string): Class { if IsCookieHeaderLikeKey(key) then LineChars else TokenChars }

  /** Another value that is read in full: of the same class, not opening a quote, not announcing credentials. */
  ghost predicate PlainValue(key: string, value: string) {
    && value != [] && (forall i | 0 <= i < |value| :: Matches(ValueClass(key), value[i]))
    && !IsSpace(value[0]) && value[0] != '"' && value[0] != '\''
    && (IsAuthHeaderLikeKey(key) && !IsCookieHeaderLikeKey(key) ==> !IsAuthScheme(value))
  }

  lemma PlainValueLength(key: string, value: string, rest: string)
    requires PlainValue(key, value) && (rest == [] || !Matches(ValueClass(key), rest[0]))
    ensures ValueLength(value + rest, None, key) == |value|
  {
    hide Span, IsAuthHeaderLikeKey, IsCookieHeaderLikeKey, IsAuthScheme;
    assert forall i | 0 <= i < |value| :: (value + rest)[i] == value[i];
    SpanIs(value + rest, ValueClass(key), |value|);
    assert (value + rest)[..|value|] == value;
  }

  /** After the value comes nothing that could be part of it, or of a word. */
  lemma RestStops(t: string, prevKey: bool)
    requires AssignmentAt(t, prevKey).Some? && AssignmentAt(t, prevKey).value.quote == None
    ensures var rest := t[ValueEndAt(t, prevKey)..];
            && (rest == [] || !Matches(ValueClass(t[..AssignmentAt(t, prevKey).value.keyEnd]), rest[0]))
            && !StartsWithKeyChar(rest)
  {
    hide AssignmentAt, ValueLength, IsCookieHeaderLikeKey;
    var a := AssignmentAt(t, prevKey).value;
    ValueStops(t[a.valueStart..], a.quote, t[..a.keyEnd]);
  }

  lemma OtherValueFound(t: string, other: string)
    requires AssignmentAt(t, false).Some? && AssignmentAt(t, false).value.quote == None
    requires PlainValue(t[..AssignmentAt(t, false).value.keyEnd], other)
    ensures AssignmentAt(WithValue(t, false, other), false) == AssignmentAt(t, false)
    ensures ValueEndAt(WithValue(t, false, other), false) == AssignmentAt(t, false).value.valueStart + |other|
  {
    hide AssignmentAt, ValueLength, Matches;
    AssignmentFacts(t, false);
    RestStops(t, false);
    var a := AssignmentAt(t, false).value;
    var head, tail := t[..a.valueStart], other + t[ValueEndAt(t, false)..];
    assert t == head + t[a.valueStart..];
    AssignmentIsLocal(head, t[a.valueStart..], tail, false);
    PlainValueLength(t[..a.keyEnd], other, t[ValueEndAt(t, false)..]);
    assert (head + tail)[a.valueStart..] == tail && (head + tail)[..a.keyEnd] == t[..a.keyEnd];
  }

  /** What a round that masks a value puts out, in terms of the rest after the value. */
  lemma MaskedUpToRest(t: string)
    requires AssignmentAt(t, false).Some? && !StartsWithKeyChar(t[ValueEndAt(t, false)..])
    ensures Redact(t, false)
         == t[..AssignmentAt(t, false).value.valueStart] + (REDACTED + Redact(t[ValueEndAt(t, false)..], false))
  {
    hide AssignmentAt, ValueLength, Redact;
    MaskedOutput(t, false);
    FlagMatters(t[ValueEndAt(t, false)..], IsKeyChar(t[ValueEndAt(t, false) - 1]), false);
  }

  lemma UnquotedValueRound(t: string, other: string)
    requires AssignmentAt(t, false).Some? && AssignmentAt(t, false).value.quote == None
    requires PlainValue(t[..AssignmentAt(t, false).value.keyEnd], other)
    ensures Redact(WithValue(t, false, other), false) == Redact(t, false)
  {
    hide AssignmentAt, Redact, PlainValue, StartsWithKeyChar;
    var a := AssignmentAt(t, false).value;
    var u := WithValue(t, false, other);
    var rest := t[ValueEndAt(t, false)..];
    OtherValueFound(t, other);
    RestStops(t, false);
    hide ValueEndAt;
    assert u[..a.valueStart] == t[..a.valueStart] && u[a.valueStart + |other|..] == rest;
    MaskedUpToRest(t);
    MaskedUpToRest(u);
  }

  /**
   The same without quotes, for every sensitive key: where the scan reaches one with an unquoted value, any other
   value of its kind that is read in full gives the same output.
   */
  lemma UnquotedValuesDoNotShow(before: string, t: string, prevKey: bool, other: string)
    requires Reaches(before + t, prevKey, |before|)
    requires var found := AssignmentAt(t, PrevAt(before, prevKey, |before|));
             found.Some? && found.value.quote == None && PlainValue(t[..found.value.keyEnd], other)
    ensures Redact(before + WithValue(t, PrevAt(before, prevKey, |before|), other), prevKey)
          == Redact(before + t, prevKey)
  {
    AssignmentFacts(t, PrevAt(before, prevKey, |before|));
    hide AssignmentAt, Redact, Reaches, PlainValue, ValueEndAt;
    UnquotedValueRound(t, other);
    SameBehind(before, t, WithValue(t, false, other), prevKey);
  }
}
