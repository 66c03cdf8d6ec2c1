/**
 The redaction scanner that master and agent share: `key = value` assignments of sensitive keys, and
 userinfo in URLs. The meaning is given by functions on what is left of the text; the scanners with
 their indices and cursors are proved to compute them.
 */
module Redaction {
  import opened Wrappers

  const REDACTED := "[REDACTED]"

  const SENSITIVE_KEYS := [
    "authorization", "bootstrap_token", "credential", "cookie", "install_command",
    "password", "private_key", "secret", "signature", "token"]

  /** The character classes the scanner steps over. */
  datatype Class = KeyChars | Spaces | InlineSpaces | TokenChars | LineChars | Except(quote: char)

  predicate IsSpace(c: char) { c in {' ', '\t', '\n', '\r', '\U{000C}'} }

  predicate IsKeyChar(c: char) {
    'a' <= c <= 'z' || 'A' <= c <= 'Z' || '0' <= c <= '9' || c == '_' || c == '-'
  }

  predicate Matches(cl: Class, c: char) {
    match cl
    case KeyChars => IsKeyChar(c)
    case Spaces => IsSpace(c)
    case InlineSpaces => IsSpace(c) && c != '\r' && c != '\n'
    case TokenChars => !IsSpace(c) && c != ',' && c != ';'
    case LineChars => c != '\r' && c != '\n'
    case Except(q) => c != q
  }

  /** How far a text stays in a class. */
  function Span(t: string, cl: Class): (n: nat)
    ensures n <= |t|
  {
    if t != [] && Matches(cl, t[0]) then 1 + Span(t[1..], cl) else 0
  }

  /** `Span` is the length of the longest prefix in the class. */
  lemma {:induction false} SpanIs(t: string, cl: Class, n: nat)
    requires n <= |t|
    ensures Span(t, cl) == n <==> (forall i | 0 <= i < n :: Matches(cl, t[i])) && (n < |t| ==> !Matches(cl, t[n]))
  {
    if t != [] && Matches(cl, t[0]) && n > 0 {
      SpanIs(t[1..], cl, n - 1);
      assert forall i | 0 < i <= n && i < |t| :: t[i] == t[1..][i - 1];
      assert (forall i | 0 <= i < n :: Matches(cl, t[i]))
        <==> (forall i | 0 <= i < n - 1 :: Matches(cl, t[1..][i])) by {
        if forall i | 0 <= i < n :: Matches(cl, t[i]) {
          assert forall i | 0 <= i < n - 1 :: t[1..][i] == t[i + 1];
        }
      }
    }
  }

  function Lower(c: char): char {
    if 'A' <= c <= 'Z' then (c as int - 'A' as int + 'a' as int) as char else c
  }

  function Normalized(key: string): (r: string)
    ensures |r| == |key|
  {
    seq(|key|, i requires 0 <= i < |key| => if key[i] == '-' then '_' else Lower(key[i]))
  }

  predicate Contains(t: string, pattern: string) {
    pattern <= t || (t != [] && Contains(t[1..], pattern))
  }

  predicate StandsAt(t: string, pattern: string, i: nat) {
    i + |pattern| <= |t| && t[i..i + |pattern|] == pattern
  }

  lemma StandsFirst(t: string, pattern: string)
    ensures pattern <= t <==> StandsAt(t, pattern, 0)
  {
    if |pattern| <= |t| {
      assert t[0..0 + |pattern|] == t[..|pattern|];
    }
  }

  lemma StandsNext(t: string, pattern: string, i: nat)
    requires t != []
    ensures StandsAt(t[1..], pattern, i) <==> StandsAt(t, pattern, i + 1)
  {
    if i + 1 + |pattern| <= |t| {
      assert t[1..][i..i + |pattern|] == t[i + 1..i + 1 + |pattern|];
    }
  }

  /** `Contains` is what its name says: the pattern stands at some position. */
  lemma {:induction false} ContainsIff(t: string, pattern: string)
    ensures Contains(t, pattern) <==> exists i: nat :: StandsAt(t, pattern, i)
    decreases |t|
  {
    StandsFirst(t, pattern);
    if t != [] {
      ContainsIff(t[1..], pattern);
      forall i: nat
        ensures StandsAt(t[1..], pattern, i) <==> StandsAt(t, pattern, i + 1)
      {
        StandsNext(t, pattern, i);
      }
      hide StandsAt;
      if i: nat :| StandsAt(t, pattern, i) && i > 0 {
        assert StandsAt(t[1..], pattern, i - 1);
      }
    } else {
      assert forall i: nat :: StandsAt(t, pattern, i) ==> i == 0;
    }
  }

  predicate IsSensitiveKey(key: string) {
    exists k | 0 <= k < |SENSITIVE_KEYS| :: Contains(Normalized(key), SENSITIVE_KEYS[k])
  }

  predicate IsAuthHeaderLikeKey(key: string) {
    Contains(Normalized(key), "authorization") || Contains(Normalized(key), "credential")
  }

  predicate IsCookieHeaderLikeKey(key: string) {
    Contains(Normalized(key), "cookie")
  }

  predicate IsAuthScheme(value: string) {
    var v := seq(|value|, i requires 0 <= i < |value| => Lower(value[i]));
    v == "bearer" || v == "basic" || v == "digest" || v == "token"
  }

  datatype Assignment = Assignment(keyEnd: nat, valueStart: nat, quote: Option<char>)

  /** After a key: where the value starts behind `=` or `:`, and its quote. */
  datatype Opening = Opening(at: nat, quote: Option<char>)

  function OpeningOf(u: string): (r: Option<Opening>)
    ensures r.Some? ==> 0 < r.value.at <= |u|
  {
    var mark := Span(u, Spaces);
    if mark == |u| || (u[mark] != '=' && u[mark] != ':') then None
    else
      var value := mark + 1 + Span(u[mark + 1..], Spaces);
      if value == |u| then None
      else if u[value] == '"' || u[value] == '\'' then Some(Opening(value + 1, Some(u[value])))
      else Some(Opening(value, None))
  }

  /** `sensitive_assignment_at`, on the text from the position on; `prevKey`: the position is inside a word. */
  function AssignmentAt(t: string, prevKey: bool): (r: Option<Assignment>)
    ensures r.Some? ==> 0 < r.value.keyEnd < r.value.valueStart <= |t|
  {
    var keyEnd := Span(t, KeyChars);
    if prevKey || keyEnd == 0 || !IsSensitiveKey(t[..keyEnd]) then None
    else
      match OpeningOf(t[keyEnd..])
      case None => None
      case Some(opening) => Some(Assignment(keyEnd, keyEnd + opening.at, opening.quote))
  }

  /** `value_end`: the length of the value that starts here. */
  function ValueLength(v: string, quote: Option<char>, key: string): (n: nat)
    ensures n <= |v|
  {
    if quote.Some? then Span(v, Except(quote.value))
    else if IsCookieHeaderLikeKey(key) then Span(v, LineChars)
    else
      var first := Span(v, TokenChars);
      if IsAuthHeaderLikeKey(key) && IsAuthScheme(v[..first]) then
        var next := first + Span(v[first..], InlineSpaces);
        var credential := Span(v[next..], TokenChars);
        if credential > 0 then next + credential else first
      else first
  }

  /** One round of the scan: how many characters it takes, and what it puts out for them. */
  datatype Round = Round(taken: nat, output: string)

  function ScanOnce(t: string, prevKey: bool): (r: Round)
    requires t != []
    ensures 0 < r.taken <= |t|
  {
    match AssignmentAt(t, prevKey)
    case None => Round(1, t[..1])
    case Some(a) =>
      var length := ValueLength(t[a.valueStart..], a.quote, t[..a.keyEnd]);
      Round(a.valueStart + length, t[..a.valueStart] + REDACTED)
  }

  /** The redacted text. */
  function Redact(t: string, prevKey: bool): string
    decreases |t|
  {
    if t == [] then []
    else
      var round := ScanOnce(t, prevKey);
      round.output + Redact(t[round.taken..], IsKeyChar(t[round.taken - 1]))
  }

  predicate PrevKey(chars: string, i: nat)
    requires i <= |chars|
  {
    i > 0 && IsKeyChar(chars[i - 1])
  }

  // ----- The scanners -----

  lemma ThreeParts(s: string, i: nat, j: nat)
    requires i <= j <= |s|
    ensures s == s[..i] + (s[i..j] + s[j..])
  {
  }

  lemma Slices(s: string, i: nat, j: nat)
    requires i <= j <= |s|
    ensures s[i..][j - i..] == s[j..] && s[i..][..j - i] == s[i..j]
  {
  }

  /** One of the scanner's `while` loops: from `start` to the first character outside the class. */
  method SkipWhile(chars: string, start: nat, cl: Class) returns (cursor: nat)
    requires start <= |chars|
    ensures cursor == start + Span(chars[start..], cl)
    ensures cursor <= |chars|
  {
    cursor := start;
    while cursor < |chars| && Matches(cl, chars[cursor])
      invariant start <= cursor <= |chars|
      invariant forall i | start <= i < cursor :: Matches(cl, chars[i])
    {
      cursor := cursor + 1;
    }
    assert cursor < |chars| ==> chars[start..][cursor - start] == chars[cursor];
    SpanIs(chars[start..], cl, cursor - start);
  }

  /** `sensitive_assignment_at` from the end of the key on. */
  method OpeningFrom(chars: string, keyEnd: nat) returns (r: Option<Opening>)
    requires keyEnd <= |chars|
    ensures match OpeningOf(chars[keyEnd..])
            case None => r == None
            case Some(opening) => r == Some(Opening(keyEnd + opening.at, opening.quote))
  {
    hide Span, Matches;
    var cursor := SkipWhile(chars, keyEnd, Spaces);
    if cursor >= |chars| || (chars[cursor] != '=' && chars[cursor] != ':') {
      return None;
    }
    Slices(chars, keyEnd, cursor + 1);
    cursor := SkipWhile(chars, cursor + 1, Spaces);
    if cursor >= |chars| {
      return None;
    }
    if chars[cursor] == '"' || chars[cursor] == '\'' {
      return Some(Opening(cursor + 1, Some(chars[cursor])));
    }
    return Some(Opening(cursor, None));
  }

  /** `sensitive_assignment_at` */
  method SensitiveAssignmentAt(chars: string, start: nat) returns (r: Option<Assignment>)
    requires start <= |chars|
    ensures match AssignmentAt(chars[start..], PrevKey(chars, start))
            case None => r == None
            case Some(a) => r == Some(Assignment(start + a.keyEnd, start + a.valueStart, a.quote))
  {
    hide Span, IsSensitiveKey, OpeningOf, Matches;
    if start > 0 && IsKeyChar(chars[start - 1]) {
      return None;
    }
    var keyEnd := SkipWhile(chars, start, KeyChars);
    Slices(chars, start, keyEnd);
    if keyEnd == start || !IsSensitiveKey(chars[start..keyEnd]) {
      return None;
    }
    var opening := OpeningFrom(chars, keyEnd);
    if opening.None? {
      return None;
    }
    return Some(Assignment(keyEnd, opening.value.at, opening.value.quote));
  }

  /** `value_end` */
  method ValueEnd(chars: string, start: nat, quote: Option<char>, key: string) returns (end: nat)
    requires start <= |chars|
    ensures end == start + ValueLength(chars[start..], quote, key)
  {
    hide Span, IsCookieHeaderLikeKey, IsAuthHeaderLikeKey, IsAuthScheme;
    if quote.Some? {
      end := SkipWhile(chars, start, Except(quote.value));
      return;
    }
    if IsCookieHeaderLikeKey(key) {
      end := SkipWhile(chars, start, LineChars);
      return;
    }
    var firstTokenEnd := SkipWhile(chars, start, TokenChars);
    Slices(chars, start, firstTokenEnd);
    if IsAuthHeaderLikeKey(key) && IsAuthScheme(chars[start..firstTokenEnd]) {
      var cursor := SkipWhile(chars, firstTokenEnd, InlineSpaces);
      Slices(chars, start, cursor);
      var credentialEnd := SkipWhile(chars, cursor, TokenChars);
      if credentialEnd > cursor {
        return credentialEnd;
      }
    }
    return firstTokenEnd;
  }

  /** The body of `redact_key_values`'s loop. */
  method ScanFrom(chars: string, index: nat) returns (next: nat, output: string)
    requires index < |chars|
    ensures index < next <= |chars|
    ensures Round(next - index, output) == ScanOnce(chars[index..], PrevKey(chars, index))
  {
    hide AssignmentAt, ValueLength, PrevKey;
    var found := SensitiveAssignmentAt(chars, index);
    if found.Some? {
      var Assignment(keyEnd, valueStart, quote) := found.value;
      Slices(chars, index, keyEnd);
      Slices(chars, index, valueStart);
      next := ValueEnd(chars, valueStart, quote, chars[index..keyEnd]);
      output := chars[index..valueStart] + REDACTED;
    } else {
      Slices(chars, index, index + 1);
      next := index + 1;
      output := chars[index..index + 1];
    }
  }

  /** One step along the text. */
  lemma RedactFrom(chars: string, i: nat, next: nat)
    requires i < next <= |chars| && next - i == ScanOnce(chars[i..], PrevKey(chars, i)).taken
    ensures Redact(chars[i..], PrevKey(chars, i))
         == ScanOnce(chars[i..], PrevKey(chars, i)).output + Redact(chars[next..], PrevKey(chars, next))
  {
    hide ScanOnce, IsKeyChar;
    Slices(chars, i, next);
    assert chars[i..][next - i - 1] == chars[next - 1];
  }

  /** `redact_key_values` */
  method RedactKeyValues(chars: string) returns (output: string)
    ensures output == Redact(chars, false)
  {
    hide ScanOnce, IsKeyChar;
    assert Redact("", PrevKey(chars, |chars|)) == "";
    hide Redact;
    output := "";
    var index := 0;
    assert chars[0..] == chars;
    while index < |chars|
      invariant index <= |chars|
      invariant Redact(chars, false) == output + Redact(chars[index..], PrevKey(chars, index))
      decreases |chars| - index
    {
      var next, piece := ScanFrom(chars, index);
      RedactFrom(chars, index, next);
      index, output := next, output + piece;
    }
  }
}
