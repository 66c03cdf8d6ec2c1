/**
 Which texts the redaction of assignments masks, character by character: the ten key words in any letter case, the
 blanks and marks behind a key, and where each kind of value ends. None of the functions of the scanner appears in
 these statements.
 */
module Secrets {
  import opened Wrappers
  import opened Redaction
  import L = RedactionLaws

  // ----- Words -----

  /** A letter of a lower-case word, in either case. */
  predicate Letter(c: char, w: char) {
    c == w || ('A' <= c <= 'Z' && c as int + 32 == w as int)
  }

  /** A text spells a word, letter case aside. */
  predicate Spells(text: string, word: string) {
    |text| == |word| && forall i | 0 <= i < |word| :: Letter(text[i], word[i])
  }

  /** The word stands in the key at position `i`; a hyphen counts as an underscore. */
  predicate NamesAt(key: string, word: string, i: nat) {
    && i + |word| <= |key|
    && forall j | 0 <= j < |word| :: Letter(key[i + j], word[j]) || (word[j] == '_' && key[i + j] == '-')
  }

  ghost predicate Names(key: string, word: string) { exists i: nat :: NamesAt(key, word, i) }

  ghost predicate NamesSecret(key: string) {
    || Names(key, "authorization") || Names(key, "bootstrap_token") || Names(key, "credential")
    || Names(key, "cookie") || Names(key, "install_command") || Names(key, "password")
    || Names(key, "private_key") || Names(key, "secret") || Names(key, "signature") || Names(key, "token")
  }

  ghost predicate NamesAuth(key: string) { Names(key, "authorization") || Names(key, "credential") }

  predicate IsScheme(text: string) {
    Spells(text, "bearer") || Spells(text, "basic") || Spells(text, "digest") || Spells(text, "token")
  }

  predicate LowerWord(word: string) {
    forall i | 0 <= i < |word| :: 'a' <= word[i] <= 'z' || word[i] == '_'
  }

  /** What the scanner makes of one character. */
  lemma LetterIff(c: char, w: char)
    requires 'a' <= w <= 'z' || w == '_'
    ensures Lower(c) == w <==> Letter(c, w)
    ensures (if c == '-' then '_' else Lower(c)) == w <==> Letter(c, w) || (w == '_' && c == '-')
  {
  }

  lemma NamesIff(key: string, word: string)
    requires LowerWord(word)
    ensures Contains(Normalized(key), word) <==> Names(key, word)
  {
    var n := Normalized(key);
    ContainsIff(n, word);
    hide Lower, Letter, Normalized;
    forall i: nat
      ensures StandsAt(n, word, i) <==> NamesAt(key, word, i)
    {
      if i + |word| <= |key| {
        NamesAtIff(key, word, i);
      }
    }
  }

  lemma NamesAtIff(key: string, word: string, i: nat)
    requires LowerWord(word) && i + |word| <= |key|
    ensures Normalized(key)[i..i + |word|] == word <==> NamesAt(key, word, i)
  {
    hide Lower, Letter;
    var part := Normalized(key)[i..i + |word|];
    forall j | 0 <= j < |word|
      ensures part[j] == word[j] <==> Letter(key[i + j], word[j]) || (word[j] == '_' && key[i + j] == '-')
    {
      LetterIff(key[i + j], word[j]);
    }
    assert part == word <==> forall j | 0 <= j < |word| :: part[j] == word[j];
  }

  /** A key is sensitive exactly when one of the ten words stands in it. */
  lemma SecretKeyIff(key: string)
    ensures IsSensitiveKey(key) <==> NamesSecret(key)
  {
    forall k | 0 <= k < |SENSITIVE_KEYS|
      ensures Contains(Normalized(key), SENSITIVE_KEYS[k]) <==> Names(key, SENSITIVE_KEYS[k])
    {
      NamesIff(key, SENSITIVE_KEYS[k]);
    }
    hide Contains, Normalized, Names;
    assert IsSensitiveKey(key) <==> exists k | 0 <= k < |SENSITIVE_KEYS| :: Names(key, SENSITIVE_KEYS[k]);
    SomeOfTen(key);
  }

  lemma SomeOfTen(key: string)
    ensures (exists k | 0 <= k < |SENSITIVE_KEYS| :: Names(key, SENSITIVE_KEYS[k])) <==> NamesSecret(key)
  {
    hide Names;
    assert |SENSITIVE_KEYS| == 10;
    assert Names(key, SENSITIVE_KEYS[0]) == Names(key, "authorization");
    assert Names(key, SENSITIVE_KEYS[1]) == Names(key, "bootstrap_token");
    assert Names(key, SENSITIVE_KEYS[2]) == Names(key, "credential");
    assert Names(key, SENSITIVE_KEYS[3]) == Names(key, "cookie");
    assert Names(key, SENSITIVE_KEYS[4]) == Names(key, "install_command");
    assert Names(key, SENSITIVE_KEYS[5]) == Names(key, "password");
    assert Names(key, SENSITIVE_KEYS[6]) == Names(key, "private_key");
    assert Names(key, SENSITIVE_KEYS[7]) == Names(key, "secret");
    assert Names(key, SENSITIVE_KEYS[8]) == Names(key, "signature");
    assert Names(key, SENSITIVE_KEYS[9]) == Names(key, "token");
  }

  lemma AuthKeyIff(key: string)
    ensures IsAuthHeaderLikeKey(key) <==> NamesAuth(key)
    ensures IsCookieHeaderLikeKey(key) <==> Names(key, "cookie")
  {
    NamesIff(key, "authorization");
    NamesIff(key, "credential");
    NamesIff(key, "cookie");
  }

  lemma SpellsIff(text: string, word: string)
    requires LowerWord(word)
    ensures seq(|text|, i requires 0 <= i < |text| => Lower(text[i])) == word <==> Spells(text, word)
  {
    hide Lower, Letter;
    forall i | 0 <= i < |text| && i < |word|
      ensures Lower(text[i]) == word[i] <==> Letter(text[i], word[i])
    {
      LetterIff(text[i], word[i]);
    }
    var lowered := seq(|text|, i requires 0 <= i < |text| => Lower(text[i]));
    assert lowered == word <==> |text| == |word| && forall i | 0 <= i < |word| :: lowered[i] == word[i];
  }

  lemma SchemeIff(text: string)
    ensures IsAuthScheme(text) <==> IsScheme(text)
  {
    SpellsIff(text, "bearer");
    SpellsIff(text, "basic");
    SpellsIff(text, "digest");
    SpellsIff(text, "token");
    hide Spells;
  }

  // ----- Characters -----

  predicate Blank(c: char) { c == ' ' || c == '\t' || c == '\n' || c == '\r' || c == '\U{000C}' }

  predicate InlineBlank(c: char) { c == ' ' || c == '\t' || c == '\U{000C}' }

  predicate WordChar(c: char) {
    'a' <= c <= 'z' || 'A' <= c <= 'Z' || '0' <= c <= '9' || c == '_' || c == '-'
  }

  predicate TokenChar(c: char) { !Blank(c) && c != ',' && c != ';' }

  predicate LineEnd(c: char) { c == '\r' || c == '\n' }

  predicate AllBlank(s: string) { forall i | 0 <= i < |s| :: Blank(s[i]) }

  predicate AllInlineBlank(s: string) { forall i | 0 <= i < |s| :: InlineBlank(s[i]) }

  predicate AllWord(s: string) { forall i | 0 <= i < |s| :: WordChar(s[i]) }

  predicate AllToken(s: string) { forall i | 0 <= i < |s| :: TokenChar(s[i]) }

  predicate OneLine(s: string) { forall i | 0 <= i < |s| :: !LineEnd(s[i]) }

  lemma ClassesAre(c: char)
    ensures Matches(KeyChars, c) <==> WordChar(c)
    ensures Matches(Spaces, c) <==> Blank(c)
    ensures Matches(InlineSpaces, c) <==> InlineBlank(c)
    ensures Matches(TokenChars, c) <==> TokenChar(c)
    ensures Matches(LineChars, c) <==> !LineEnd(c)
  {
  }

  /** A run of one class in front of a text that does not go on with it. */
  lemma SpanOf(x: string, y: string, cl: Class)
    requires forall i | 0 <= i < |x| :: Matches(cl, x[i])
    requires y == [] || !Matches(cl, y[0])
    ensures Span(x + y, cl) == |x| && (x + y)[..|x|] == x && (x + y)[|x|..] == y
  {
    hide Span, Matches;
    assert forall i | 0 <= i < |x| :: (x + y)[i] == x[i];
    SpanIs(x + y, cl, |x|);
  }

  lemma ClassesOf(s: string)
    ensures AllWord(s) <==> forall i | 0 <= i < |s| :: Matches(KeyChars, s[i])
    ensures AllBlank(s) <==> forall i | 0 <= i < |s| :: Matches(Spaces, s[i])
    ensures AllInlineBlank(s) <==> forall i | 0 <= i < |s| :: Matches(InlineSpaces, s[i])
    ensures AllToken(s) <==> forall i | 0 <= i < |s| :: Matches(TokenChars, s[i])
    ensures OneLine(s) <==> forall i | 0 <= i < |s| :: Matches(LineChars, s[i])
  {
    forall i | 0 <= i < |s|
      ensures Matches(KeyChars, s[i]) <==> WordChar(s[i])
      ensures Matches(Spaces, s[i]) <==> Blank(s[i])
      ensures Matches(InlineSpaces, s[i]) <==> InlineBlank(s[i])
      ensures Matches(TokenChars, s[i]) <==> TokenChar(s[i])
      ensures Matches(LineChars, s[i]) <==> !LineEnd(s[i])
    {
      ClassesAre(s[i]);
    }
    hide Matches, WordChar, Blank, InlineBlank, TokenChar, LineEnd;
  }

  lemma SpanOfToken(x: string, y: string)
    requires AllToken(x) && EndsToken(y)
    ensures Span(x + y, TokenChars) == |x| && (x + y)[..|x|] == x && (x + y)[|x|..] == y
  {
    ClassesOf(x);
    if y != [] {
      ClassesAre(y[0]);
    }
    SpanOf(x, y, TokenChars);
  }

  lemma SpanOfBlank(x: string, y: string)
    requires AllBlank(x) && y != [] && !Blank(y[0])
    ensures Span(x + y, Spaces) == |x| && (x + y)[..|x|] == x && (x + y)[|x|..] == y
  {
    ClassesOf(x);
    ClassesAre(y[0]);
    SpanOf(x, y, Spaces);
  }

  lemma SpanOfInlineBlank(x: string, y: string)
    requires AllInlineBlank(x) && y != [] && !InlineBlank(y[0])
    ensures Span(x + y, InlineSpaces) == |x| && (x + y)[..|x|] == x && (x + y)[|x|..] == y
  {
    ClassesOf(x);
    ClassesAre(y[0]);
    SpanOf(x, y, InlineSpaces);
  }

  lemma SpanOfLine(x: string, y: string)
    requires OneLine(x) && (y == [] || LineEnd(y[0]))
    ensures Span(x + y, LineChars) == |x| && (x + y)[..|x|] == x && (x + y)[|x|..] == y
  {
    ClassesOf(x);
    if y != [] {
      ClassesAre(y[0]);
    }
    SpanOf(x, y, LineChars);
  }

  // ----- Keys -----

  /** What stands in front of a secret: a key that names one, an equals sign or a colon, and blanks around it. */
  ghost predicate IsKeyPart(key: string, gap: string, mark: char, space: string) {
    && key != [] && AllWord(key) && NamesSecret(key)
    && AllBlank(gap) && (mark == '=' || mark == ':') && AllBlank(space)
  }

  function KeyPart(key: string, gap: string, mark: char, space: string): string {
    key + (gap + ([mark] + space))
  }

  /** What follows the key part begins a value. */
  predicate BeginsValue(tail: string) { tail != [] && !Blank(tail[0]) }

  predicate IsQuote(c: char) { c == '"' || c == '\'' }

  lemma OpeningFound(gap: string, mark: char, space: string, tail: string)
    requires AllBlank(gap) && (mark == '=' || mark == ':') && AllBlank(space) && BeginsValue(tail)
    ensures var at := |gap| + 1 + |space|;
            OpeningOf(gap + ([mark] + (space + tail)))
            == Some(if IsQuote(tail[0]) then Opening(at + 1, Some(tail[0])) else Opening(at, None))
  {
    hide Span;
    SpanOfBlank(gap, [mark] + (space + tail));
    SpanOfBlank(space, tail);
    OpeningParts(gap, mark, space, tail);
    hide AllBlank, BeginsValue, Blank;
    OpeningFromSpans(gap + ([mark] + (space + tail)), |gap|, |gap| + 1 + |space|);
  }

  lemma OpeningParts(gap: string, mark: char, space: string, tail: string)
    requires tail != []
    ensures var u := gap + ([mark] + (space + tail));
            && u[|gap|] == mark && u[|gap| + 1..] == space + tail && u[|gap| + 1 + |space|] == tail[0]
            && |u| > |gap| + 1 + |space|
  {
  }

  lemma OpeningFromSpans(u: string, m: nat, w: nat)
    requires m < w < |u| && Span(u, Spaces) == m && (u[m] == '=' || u[m] == ':')
    requires Span(u[m + 1..], Spaces) == w - m - 1
    ensures OpeningOf(u) == Some(if IsQuote(u[w]) then Opening(w + 1, Some(u[w])) else Opening(w, None))
  {
    hide Span;
  }

  /** The scan finds the assignment behind a key part. */
  lemma AssignmentFound(key: string, gap: string, mark: char, space: string, tail: string)
    requires IsKeyPart(key, gap, mark, space) && BeginsValue(tail)
    ensures var at := |KeyPart(key, gap, mark, space)|;
            AssignmentAt(KeyPart(key, gap, mark, space) + tail, false)
            == Some(if IsQuote(tail[0]) then Assignment(|key|, at + 1, Some(tail[0])) else Assignment(|key|, at, None))
  {
    hide Span, OpeningOf, IsSensitiveKey, NamesSecret;
    var rest := gap + ([mark] + (space + tail));
    Joined(key, gap, mark, space, tail);
    SecretKeyIff(key);
    ClassesOf(key);
    assert rest[0] == if gap != [] then gap[0] else mark;
    ClassesAre(rest[0]);
    SpanOf(key, rest, KeyChars);
    OpeningFound(gap, mark, space, tail);
  }

  // ----- Values -----

  /** Nothing follows that a token could go on with. */
  predicate EndsToken(rest: string) { rest == [] || !TokenChar(rest[0]) }

  /** The line of a cookie. */
  ghost predicate IsCookieLine(key: string, value: string, rest: string) {
    Names(key, "cookie") && OneLine(value) && (rest == [] || LineEnd(rest[0]))
  }

  /** A token of a key that takes no scheme, or one that is no scheme. */
  ghost predicate IsToken(key: string, value: string, rest: string) {
    !Names(key, "cookie") && AllToken(value) && EndsToken(rest) && (NamesAuth(key) ==> !IsScheme(value))
  }

  /** A scheme and, on the same line, its credential. */
  ghost predicate IsCredential(key: string, scheme: string, gap: string, token: string, rest: string) {
    && !Names(key, "cookie") && NamesAuth(key)
    && IsScheme(scheme) && gap != [] && AllInlineBlank(gap) && token != [] && AllToken(token) && EndsToken(rest)
  }

  lemma CookieLength(key: string, value: string, rest: string)
    requires IsCookieLine(key, value, rest)
    ensures ValueLength(value + rest, None, key) == |value|
  {
    AuthKeyIff(key);
    SpanOfLine(value, rest);
    hide Span, Names, IsCookieHeaderLikeKey, IsAuthHeaderLikeKey, IsAuthScheme;
  }

  lemma TokenLength(key: string, value: string, rest: string)
    requires IsToken(key, value, rest)
    ensures ValueLength(value + rest, None, key) == |value|
  {
    AuthKeyIff(key);
    SchemeIff(value);
    SpanOfToken(value, rest);
    hide Span, Names, IsCookieHeaderLikeKey, IsAuthHeaderLikeKey, IsAuthScheme;
  }

  /** A scheme is one token. */
  lemma SchemeIsToken(scheme: string)
    requires IsScheme(scheme)
    ensures scheme != [] && AllToken(scheme) && WordChar(scheme[0])
  {
    var word := if Spells(scheme, "bearer") then "bearer" else if Spells(scheme, "basic") then "basic"
                else if Spells(scheme, "digest") then "digest" else "token";
    assert LowerWord(word) && Spells(scheme, word);
    hide IsScheme;
    assert forall i | 0 <= i < |scheme| :: Letter(scheme[i], word[i]);
  }

  lemma CredentialSpans(scheme: string, gap: string, token: string, rest: string)
    requires IsScheme(scheme) && gap != [] && AllInlineBlank(gap) && token != [] && AllToken(token) && EndsToken(rest)
    ensures var v := scheme + (gap + (token + rest));
            && Span(v, TokenChars) == |scheme| && v[..|scheme|] == scheme
            && Span(v[|scheme|..], InlineSpaces) == |gap|
            && Span(v[|scheme| + |gap|..], TokenChars) == |token|
  {
    SchemeIsToken(scheme);
    hide Span, IsScheme, AllToken, AllInlineBlank;
    SpanOfToken(scheme, gap + (token + rest));
    SpanOfInlineBlank(gap, token + rest);
    SpanOfToken(token, rest);
    var v := scheme + (gap + (token + rest));
    assert v[|scheme| + |gap|..] == token + rest;
  }

  lemma CredentialLength(key: string, scheme: string, gap: string, token: string, rest: string)
    requires IsCredential(key, scheme, gap, token, rest)
    ensures ValueLength(scheme + (gap + (token + rest)), None, key) == |scheme| + |gap| + |token|
  {
    AuthKeyIff(key);
    SchemeIff(scheme);
    CredentialSpans(scheme, gap, token, rest);
    hide Span, Names, IsCookieHeaderLikeKey, IsAuthHeaderLikeKey, IsAuthScheme, IsScheme, AllToken, AllInlineBlank,
      EndsToken, NamesAuth;
  }

  // ----- What is masked -----

  /** Behind a key part and before anything that could not go on with a word, a value found is masked. */
  lemma ValueIsMasked(head: string, value: string, rest: string, a: Assignment)
    requires AssignmentAt(head + (value + rest), false) == Some(a) && a.valueStart == |head|
    requires ValueLength(value + rest, a.quote, head[..a.keyEnd]) == |value|
    requires rest == [] || !WordChar(rest[0])
    ensures Redact(head + (value + rest), false) == head + ("[REDACTED]" + Redact(rest, false))
  {
    hide *;
    var t := head + (value + rest);
    Parts(head, value, rest, a.keyEnd);
    NoWord(rest);
    MaskedIn(t, a, |value|);
  }

  lemma MaskedIn(t: string, a: Assignment, n: nat)
    requires AssignmentAt(t, false) == Some(a) && a.keyEnd <= a.valueStart <= a.valueStart + n <= |t|
    requires ValueLength(t[a.valueStart..], a.quote, t[..a.keyEnd]) == n
    requires !L.StartsWithKeyChar(t[a.valueStart + n..])
    ensures Redact(t, false) == t[..a.valueStart] + ("[REDACTED]" + Redact(t[a.valueStart + n..], false))
  {
    hide AssignmentAt, ValueLength, Redact, L.StartsWithKeyChar;
    L.MaskedUpToRest(t);
  }

  lemma Parts(head: string, value: string, rest: string, k: nat)
    requires k <= |head|
    ensures var t := head + (value + rest);
            && t[..|head|] == head && t[|head|..] == value + rest && t[..k] == head[..k]
            && t[|head| + |value|..] == rest
  {
  }

  lemma NoWord(rest: string)
    requires rest == [] || !WordChar(rest[0])
    ensures !L.StartsWithKeyChar(rest)
  {
  }

  /** A value in quotes, closed or not. */
  lemma QuotedIsMasked(key: string, gap: string, mark: char, space: string, quote: char, value: string, rest: string)
    requires IsKeyPart(key, gap, mark, space) && IsQuote(quote)
    requires quote !in value && (rest == [] || rest[0] == quote)
    ensures var head := KeyPart(key, gap, mark, space) + [quote];
            Redact(head + (value + rest), false) == head + ("[REDACTED]" + Redact(rest, false))
  {
    var part := KeyPart(key, gap, mark, space);
    var head := part + [quote];
    hide *;
    QuotedFound(key, gap, mark, space, quote, value + rest);
    QuotedLength(key, quote, value, rest);
    QuoteIsNoWord(quote);
    ValueIsMasked(head, value, rest, Assignment(|key|, |head|, Some(quote)));
  }

  lemma QuoteIsNoWord(quote: char)
    requires IsQuote(quote)
    ensures !WordChar(quote)
  {
  }

  lemma QuotedFound(key: string, gap: string, mark: char, space: string, quote: char, tail: string)
    requires IsKeyPart(key, gap, mark, space) && IsQuote(quote)
    ensures var head := KeyPart(key, gap, mark, space) + [quote];
            && AssignmentAt(head + tail, false) == Some(Assignment(|key|, |head|, Some(quote)))
            && head[..|key|] == key
  {
    hide *;
    KeyFirst(key, gap, mark, space, quote, tail);
    AssignmentFound(key, gap, mark, space, [quote] + tail);
  }

  lemma KeyFirst(key: string, gap: string, mark: char, space: string, quote: char, tail: string)
    requires IsQuote(quote)
    ensures var part := KeyPart(key, gap, mark, space);
            && part + ([quote] + tail) == part + [quote] + tail && (part + [quote])[..|key|] == key
            && ([quote] + tail)[0] == quote && BeginsValue([quote] + tail) && IsQuote(([quote] + tail)[0])
            && |key| < |part|
  {
  }

  lemma QuotedLength(key: string, quote: char, value: string, rest: string)
    requires quote !in value && (rest == [] || rest[0] == quote)
    ensures ValueLength(value + rest, Some(quote), key) == |value|
  {
    hide Span;
    assert forall i | 0 <= i < |value| :: value[i] in value;
    SpanOf(value, rest, Except(quote));
  }

  /** A value without quotes, as far as it goes in front of `rest`. */
  ghost predicate IsBareValue(key: string, value: string, rest: string) {
    && BeginsValue(value) && !IsQuote(value[0])
    && (|| IsCookieLine(key, value, rest)
        || IsToken(key, value, rest)
        || exists scheme, gap, token :: IsCredential(key, scheme, gap, token, rest)
                                        && value == scheme + (gap + token))
  }

  lemma BareLength(key: string, value: string, rest: string)
    requires IsBareValue(key, value, rest)
    ensures ValueLength(value + rest, None, key) == |value| && (rest == [] || !WordChar(rest[0]))
  {
    hide ValueLength, NamesAuth, IsScheme;
    if IsCookieLine(key, value, rest) {
      CookieLength(key, value, rest);
    } else if IsToken(key, value, rest) {
      TokenLength(key, value, rest);
    } else {
      var scheme, gap, token :| IsCredential(key, scheme, gap, token, rest) && value == scheme + (gap + token);
      CredentialLength(key, scheme, gap, token, rest);
      assert value + rest == scheme + (gap + (token + rest));
    }
  }

  /** Whatever the key word, its case and the blanks: a value without quotes is masked in full. */
  lemma BareIsMasked(key: string, gap: string, mark: char, space: string, value: string, rest: string)
    requires IsKeyPart(key, gap, mark, space) && IsBareValue(key, value, rest)
    ensures var head := KeyPart(key, gap, mark, space);
            Redact(head + (value + rest), false) == head + ("[REDACTED]" + Redact(rest, false))
  {
    var head := KeyPart(key, gap, mark, space);
    assert head[..|key|] == key && BeginsValue(value) && !IsQuote(value[0]) && BeginsValue(value + rest);
    BareLength(key, value, rest);
    hide IsKeyPart, KeyPart, Span, AssignmentAt, ValueLength, Redact, IsBareValue;
    AssignmentFound(key, gap, mark, space, value + rest);
    ValueIsMasked(head, value, rest, Assignment(|key|, |head|, None));
  }

  lemma CredentialIsBare(key: string, scheme: string, gap: string, token: string, rest: string)
    requires IsCredential(key, scheme, gap, token, rest)
    ensures IsBareValue(key, scheme + (gap + token), rest)
  {
    SchemeIsToken(scheme);
    var value := scheme + (gap + token);
    assert value[0] == scheme[0];
    assert IsCredential(key, scheme, gap, token, rest) && value == scheme + (gap + token);
    hide IsCredential;
  }

  /** Two texts that a scan reaches alike and that redact alike from there on, behind the start of a word. */
  lemma Behind(before: string, prevKey: bool, head: string, y: string, z: string)
    requires head != [] && WordChar(head[0]) && Redact(head + y, false) == Redact(head + z, false)
    requires L.Reaches(before + (head + y), prevKey, |before|) && !L.PrevAt(before, prevKey, |before|)
    ensures Redact(before + (head + y), prevKey) == Redact(before + (head + z), prevKey)
  {
    ClassesAre(head[0]);
    hide Redact, L.Reaches;
    L.SameBehind(before, head + y, head + z, prevKey);
  }

  lemma StartsWord(key: string, gap: string, mark: char, space: string)
    requires IsKeyPart(key, gap, mark, space)
    ensures var head := KeyPart(key, gap, mark, space); head != [] && WordChar(head[0])
  {
    assert key[0] in key;
  }

  /**
   Where the scan reaches a key that names a secret, any other value without quotes gives the same output: nothing of
   a token, of a cookie's line or of a credential behind its scheme shows.
   */
  lemma BareSecretsDoNotShow(before: string, prevKey: bool, key: string, gap: string, mark: char, space: string,
                             value: string, other: string, rest: string)
    requires IsKeyPart(key, gap, mark, space) && IsBareValue(key, value, rest) && IsBareValue(key, other, rest)
    requires !L.PrevAt(before, prevKey, |before|)
    requires L.Reaches(before + (KeyPart(key, gap, mark, space) + (value + rest)), prevKey, |before|)
    ensures Redact(before + (KeyPart(key, gap, mark, space) + (value + rest)), prevKey)
         == Redact(before + (KeyPart(key, gap, mark, space) + (other + rest)), prevKey)
  {
    StartsWord(key, gap, mark, space);
    hide *;
    BareIsMasked(key, gap, mark, space, value, rest);
    BareIsMasked(key, gap, mark, space, other, rest);
    Behind(before, prevKey, KeyPart(key, gap, mark, space), value + rest, other + rest);
  }

  /** In particular the credential behind one of the four schemes, in any letter case. */
  lemma CredentialsDoNotShow(before: string, prevKey: bool, key: string, gap: string, mark: char, space: string,
                             scheme: string, inner: string, token: string, other: string, rest: string)
    requires IsKeyPart(key, gap, mark, space)
    requires IsCredential(key, scheme, inner, token, rest) && other != [] && AllToken(other)
    requires !L.PrevAt(before, prevKey, |before|)
    requires L.Reaches(before + (KeyPart(key, gap, mark, space) + (scheme + (inner + token) + rest)), prevKey, |before|)
    ensures Redact(before + (KeyPart(key, gap, mark, space) + (scheme + (inner + token) + rest)), prevKey)
         == Redact(before + (KeyPart(key, gap, mark, space) + (scheme + (inner + other) + rest)), prevKey)
  {
    CredentialIsBare(key, scheme, inner, token, rest);
    CredentialIsBare(key, scheme, inner, other, rest);
    hide *;
    BareSecretsDoNotShow(before, prevKey, key, gap, mark, space, scheme + (inner + token), scheme + (inner + other),
                         rest);
  }

  /** Likewise in quotes. */
  lemma QuotedSecretsDoNotShow(before: string, prevKey: bool, key: string, gap: string, mark: char, space: string,
                               quote: char, value: string, other: string, rest: string)
    requires IsKeyPart(key, gap, mark, space) && IsQuote(quote)
    requires quote !in value && quote !in other && (rest == [] || rest[0] == quote)
    requires !L.PrevAt(before, prevKey, |before|)
    requires L.Reaches(before + (KeyPart(key, gap, mark, space) + [quote] + (value + rest)), prevKey, |before|)
    ensures Redact(before + (KeyPart(key, gap, mark, space) + [quote] + (value + rest)), prevKey)
         == Redact(before + (KeyPart(key, gap, mark, space) + [quote] + (other + rest)), prevKey)
  {
    StartsWord(key, gap, mark, space);
    hide *;
    QuotedIsMasked(key, gap, mark, space, quote, value, rest);
    QuotedIsMasked(key, gap, mark, space, quote, other, rest);
    Behind(before, prevKey, KeyPart(key, gap, mark, space) + [quote], value + rest, other + rest);
  }

  // ----- Nothing else is touched -----

  /** The text begins with a key part and the beginning of a value. */
  ghost predicate Opens(t: string) {
    exists key, gap, mark, space, tail ::
      IsKeyPart(key, gap, mark, space) && BeginsValue(tail) && t == KeyPart(key, gap, mark, space) + tail
  }

  lemma SpanSplits(t: string, cl: Class)
    ensures var n := Span(t, cl);
            && (forall i | 0 <= i < n :: Matches(cl, t[..n][i])) && t == t[..n] + t[n..]
            && (n < |t| ==> !Matches(cl, t[n]))
  {
    hide Span, Matches;
    SpanIs(t, cl, Span(t, cl));
  }

  /** The scan finds assignments only where a text opens one. */
  lemma OpensIff(t: string)
    ensures AssignmentAt(t, false).Some? <==> Opens(t)
  {
    if Opens(t) {
      var key, gap, mark, space, tail :|
        IsKeyPart(key, gap, mark, space) && BeginsValue(tail) && t == KeyPart(key, gap, mark, space) + tail;
      hide AssignmentAt, IsKeyPart;
      AssignmentFound(key, gap, mark, space, tail);
    } else if AssignmentAt(t, false).Some? {
      FoundOpens(t);
    }
  }

  lemma FourParts(u: string, m: nat, w: nat)
    requires m + 1 + w < |u|
    ensures var v := u[m + 1..];
            u == u[..m] + ([u[m]] + (v[..w] + v[w..])) && v[w..] != [] && v[w..][0] == v[w]
  {
  }

  lemma OpeningSplits(u: string) returns (gap: string, mark: char, space: string, tail: string)
    requires OpeningOf(u).Some?
    ensures u == gap + ([mark] + (space + tail))
    ensures AllBlank(gap) && (mark == '=' || mark == ':') && AllBlank(space) && BeginsValue(tail)
  {
    hide Span, Matches, AllBlank;
    var m := Span(u, Spaces);
    SpanSplits(u, Spaces);
    var v := u[m + 1..];
    var w := Span(v, Spaces);
    SpanSplits(v, Spaces);
    FourParts(u, m, w);
    gap, mark, space, tail := u[..m], u[m], v[..w], v[w..];
    ClassesOf(gap);
    ClassesOf(space);
    ClassesAre(tail[0]);
  }

  lemma FoundOpens(t: string)
    requires AssignmentAt(t, false).Some?
    ensures Opens(t)
  {
    hide Span, Matches, IsSensitiveKey, NamesSecret, AllWord, AllBlank, OpeningOf;
    var k := Span(t, KeyChars);
    SpanSplits(t, KeyChars);
    ClassesOf(t[..k]);
    SecretKeyIff(t[..k]);
    var gap, mark, space, tail := OpeningSplits(t[k..]);
    Joined(t[..k], gap, mark, space, tail);
    assert IsKeyPart(t[..k], gap, mark, space) && BeginsValue(tail);
  }

  lemma Joined(key: string, gap: string, mark: char, space: string, tail: string)
    ensures key + (gap + ([mark] + (space + tail))) == KeyPart(key, gap, mark, space) + tail
  {
  }

  /** A text without a secret at the start of any word stays as it is. */
  lemma {:induction false} NothingElseIsTouched(t: string, prevKey: bool)
    requires forall i | 0 <= i < |t| && Opens(t[i..]) :: if i == 0 then prevKey else WordChar(t[i - 1])
    ensures Redact(t, prevKey) == t
    decreases |t|
  {
    hide Opens, Redact, AssignmentAt;
    if t == [] {
      assert Redact([], prevKey) == [] by { EmptyStays(prevKey); }
    } else {
      assert t[0..] == t;
      OpensIff(t);
      if prevKey {
        L.NoKeyNoAssignment(t, true);
      }
      ClassesAre(t[0]);
      forall i | 0 <= i < |t[1..]| && Opens(t[1..][i..])
        ensures if i == 0 then IsKeyChar(t[0]) else WordChar(t[1..][i - 1])
      {
        assert t[1..][i..] == t[i + 1..];
      }
      NothingElseIsTouched(t[1..], IsKeyChar(t[0]));
      L.CopiesOne(t, prevKey);
    }
  }

  lemma EmptyStays(prevKey: bool)
    ensures Redact([], prevKey) == []
  {
  }
}
