/**
 Redaction of private key blocks: each line that begins one is replaced by a mark, and the lines up to the one
 that ends it are dropped. Lines are taken and joined anew, so line endings change; when a second pass changes
 the output again is characterised exactly.
 */
module PrivateKeys {
  import Redaction

  const MARK := "[REDACTED PRIVATE KEY]"

  /** The first newline. */
  function NewlineAt(t: string): (n: nat)
    ensures n <= |t|
    ensures '\n' !in t[..n]
    ensures n < |t| ==> t[n] == '\n'
  {
    if t == [] || t[0] == '\n' then 0
    else
      assert t[..1 + NewlineAt(t[1..])] == [t[0]] + t[1..][..NewlineAt(t[1..])];
      1 + NewlineAt(t[1..])
  }

  function StripReturn(s: string): string {
    if s != [] && s[|s| - 1] == '\r' then s[..|s| - 1] else s
  }

  /** One line as `str::lines` gives it, what follows it, and whether a newline ended it. */
  datatype Line = Line(text: string, rest: string, ended: bool)

  function FirstLine(t: string): (l: Line)
    requires t != []
    ensures |l.rest| < |t| && '\n' !in l.text && (!l.ended ==> l.rest == [])
    ensures |l.text| + (if l.ended then 1 else 0) + |l.rest| <= |t|
  {
    var n := NewlineAt(t);
    if n < |t| then Line(StripReturn(t[..n]), t[n + 1..], true)
    else
      assert t[..n] == t;
      Line(t, [], false)
  }

  predicate Begins(line: string) {
    Redaction.Contains(line, "-----BEGIN ") && Redaction.Contains(line, " PRIVATE KEY-----")
  }

  predicate Ends(line: string) {
    Redaction.Contains(line, "-----END ") && Redaction.Contains(line, " PRIVATE KEY-----")
  }

  /** What is put out for the rest of a text once something was; `ended`: its last line so far had a newline. */
  function Tail(t: string, inKey: bool, ended: bool): string
    decreases |t|
  {
    if t == [] then if ended then "\n" else ""
    else
      var l := FirstLine(t);
      if Begins(l.text) then ['\n'] + (MARK + Tail(l.rest, true, l.ended))
      else if inKey then Tail(l.rest, !Ends(l.text), l.ended)
      else ['\n'] + (l.text + Tail(l.rest, false, l.ended))
  }

  /** The same while nothing was put out yet. */
  function Head(t: string, inKey: bool, ended: bool): string
    decreases |t|
  {
    if t == [] then if ended then "\n" else ""
    else
      var l := FirstLine(t);
      if Begins(l.text) then MARK + Tail(l.rest, true, l.ended)
      else if inKey then Head(l.rest, !Ends(l.text), l.ended)
      else if l.text == [] then Head(l.rest, false, l.ended)
      else l.text + Tail(l.rest, false, l.ended)
  }

  function Redact(t: string): string { Head(t, false, false) }

  function Remaining(t: string, inKey: bool, ended: bool, started: bool): string {
    if started then Tail(t, inKey, ended) else Head(t, inKey, ended)
  }

  /** `input.ends_with('\n')` */
  predicate EndsWithNewline(t: string) { t != [] && t[|t| - 1] == '\n' }

  /** What is left of the input, and whether what was taken so far ended with a newline. */
  ghost predicate Left(input: string, t: string, ended: bool) {
    exists done :: input == done + t && EndsWithNewline(done) == ended
  }

  lemma AllLeft(input: string)
    ensures Left(input, input, false)
  {
    assert input == "" + input && !EndsWithNewline("");
  }

  lemma NoneLeft(input: string, ended: bool)
    requires Left(input, [], ended)
    ensures EndsWithNewline(input) == ended
  {
    var done :| input == done + [] && EndsWithNewline(done) == ended;
    assert input == done;
  }

  lemma LineTaken(input: string, t: string, ended: bool)
    requires t != [] && Left(input, t, ended)
    ensures Left(input, FirstLine(t).rest, FirstLine(t).ended)
  {
    var done :| input == done + t && EndsWithNewline(done) == ended;
    var l := FirstLine(t);
    var n := NewlineAt(t);
    var taken := if n < |t| then t[..n + 1] else t;
    assert n == |t| ==> t[..n] == t && t[|t| - 1] in t[..n];
    assert t == taken + l.rest && EndsWithNewline(taken) == l.ended;
    assert input == (done + taken) + l.rest && EndsWithNewline(done + taken) == l.ended;
  }

  /** Puts a line out, on a line of its own. */
  function Push(output: string, line: string): string {
    if output != "" then output + "\n" + line else line
  }

  /** One round of the loop. */
  lemma RemainingStep(output: string, t: string, inKey: bool, ended: bool)
    requires t != []
    ensures var l := FirstLine(t);
            output + Remaining(t, inKey, ended, output != "")
            == if Begins(l.text) then Push(output, MARK) + Remaining(l.rest, true, l.ended, true)
               else if inKey then output + Remaining(l.rest, !Ends(l.text), l.ended, output != "")
               else Push(output, l.text) + Remaining(l.rest, false, l.ended, Push(output, l.text) != "")
  {
    var l := FirstLine(t);
    Pushed(output, MARK, Tail(l.rest, true, l.ended));
    Pushed(output, l.text, Tail(l.rest, false, l.ended));
    hide FirstLine, Begins, Ends, Push;
  }

  lemma Pushed(output: string, line: string, more: string)
    ensures output != "" ==> output + (['\n'] + (line + more)) == Push(output, line) + more && Push(output, line) != ""
    ensures output == "" ==> output + (line + more) == Push(output, line) + more && Push(output, line) == line
    ensures "" + more == more
  {
  }

  /** `redact_private_key_blocks` */
  method RedactPrivateKeyBlocks(input: string) returns (output: string)
    ensures output == Redact(input)
  {
    output := "";
    var inPrivateKey := false;
    var lines := input;
    ghost var ended := false;
    AllLeft(input);
    hide Begins, Ends, FirstLine, Head, Tail, Left;
    while lines != []
      invariant Left(input, lines, ended)
      invariant Redact(input) == output + Remaining(lines, inPrivateKey, ended, output != "")
      decreases |lines|
    {
      RemainingStep(output, lines, inPrivateKey, ended);
      LineTaken(input, lines, ended);
      hide Remaining;
      var line := FirstLine(lines);
      ended := line.ended;
      lines := line.rest;
      if Begins(line.text) {
        if output != "" {
          output := output + "\n";
        }
        output := output + MARK;
        inPrivateKey := true;
      } else if inPrivateKey {
        if Ends(line.text) {
          inPrivateKey := false;
        }
      } else {
        if output != "" {
          output := output + "\n";
        }
        output := output + line.text;
      }
    }
    NoneLeft(input, ended);
    NothingRemains(inPrivateKey, ended, output != "");
    if |input| > 0 && input[|input| - 1] == '\n' {
      output := output + "\n";
    }
  }

  lemma NothingRemains(inKey: bool, ended: bool, started: bool)
    ensures Remaining([], inKey, ended, started) == if ended then "\n" else ""
  {
  }
}
