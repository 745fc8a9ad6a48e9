/** String values in a configuration file: `sym_escape_string_value` of tools/kconfig/symbol.c and the
    unescaping loop of `conf_set_sym_val` in tools/kconfig/confdata.c. */
module KconfigStrings {
  import opened Word

  predicate Special(c: char) { c == '"' || c == '\\' }

  /** Quotes and backslashes get a backslash in front. */
  function EscapeBody(s: string): string {
    if s == [] then []
    else (if Special(s[0]) then ['\\', s[0]] else [s[0]]) + EscapeBody(s[1..])
  }

  function Escape(s: string): string { ['"'] + EscapeBody(s) + ['"'] }

  lemma {:induction false} EscapeSnoc(s: string, c: char)
    ensures EscapeBody(s + [c]) == EscapeBody(s) + (if Special(c) then ['\\', c] else [c])
  {
    if s == [] {
      assert s + [c] == [c] && [c][1..] == [];
      assert EscapeBody([c]) == (if Special(c) then ['\\', c] else [c]) + EscapeBody([]);
    } else {
      EscapeSnoc(s[1..], c);
      assert (s + [c])[1..] == s[1..] + [c];
    }
  }

  lemma {:induction false} EscapePlain(s: string, plain: string)
    requires forall i | 0 <= i < |plain| :: !Special(plain[i])
    ensures EscapeBody(s + plain) == EscapeBody(s) + plain
  {
    if plain == [] {
      assert s + plain == s;
    } else {
      var n := |plain| - 1;
      EscapePlain(s, plain[..n]);
      EscapeSnoc(s + plain[..n], plain[n]);
      assert (s + plain[..n]) + [plain[n]] == s + plain;
      assert plain[..n] + [plain[n]] == plain;
    }
  }

  lemma EscapeChunk(s: string, p: nat, q: nat)
    requires p <= q <= |s| && forall i | p <= i < q :: !Special(s[i])
    ensures EscapeBody(s[..q]) == EscapeBody(s[..p]) + s[p..q]
  {
    EscapePlain(s[..p], s[p..q]);
    assert s[..p] + s[p..q] == s[..q];
  }

  lemma EscapeNext(s: string, p: nat)
    requires p < |s| && Special(s[p])
    ensures EscapeBody(s[..p + 1]) == EscapeBody(s[..p]) + ['\\', s[p]]
  {
    EscapeSnoc(s[..p], s[p]);
    assert s[..p + 1] == s[..p] + [s[p]];
  }

  /** `strcspn`: where the next special character stands, or the end. */
  method NextSpecial(s: string, p: nat) returns (q: nat)
    requires p <= |s|
    ensures p <= q <= |s| && (q < |s| ==> Special(s[q]))
    ensures forall i | p <= i < q :: !Special(s[i])
  {
    q := p;
    while q < |s| && !Special(s[q])
      invariant p <= q <= |s| && forall i | p <= i < q :: !Special(s[i])
    {
      q := q + 1;
    }
  }

  /** `sym_escape_string_value`, copying up to the next special character at a time. */
  method EscapeString(s: string) returns (res: string)
    ensures res == Escape(s)
  {
    hide EscapeBody, Special;
    res := ['"'];
    var p := 0;
    StartEscape(s);
    while true
      invariant p <= |s| && res == ['"'] + EscapeBody(s[..p])
      decreases |s| - p
    {
      var q := NextSpecial(s, p);
      EscapeChunk(s, p, q);
      res := res + s[p..q];
      p := q;
      if p == |s| { break; }
      EscapeNext(s, p);
      res := res + ['\\', s[p]];
      p := p + 1;
    }
    assert s[..|s|] == s;
    res := res + ['"'];
  }

  lemma StartEscape(s: string)
    ensures ['"'] + EscapeBody(s[..0]) == ['"']
  {
  }

  // ---- Reading ----------------------------------------------------------------------------

  function Prepend(front: string, rest: Option<string>): Option<string> {
    match rest case None => None case Some(r) => Some(front + r)
  }

  /** What follows the opening quote, up to the closing one; None when there is none. */
  function Unescape(s: string): Option<string> {
    if s == [] || s[0] == '"' then (if s == [] then None else Some([]))
    else if s[0] == '\\' then (if |s| == 1 then None else Prepend([s[1]], Unescape(s[2..])))
    else Prepend([s[0]], Unescape(s[1..]))
  }

  /** The text ends in a lone backslash before any closing quote. */
  predicate Dangling(s: string) {
    if s == [] || s[0] == '"' then false
    else if s[0] == '\\' then |s| == 1 || Dangling(s[2..])
    else Dangling(s[1..])
  }

  lemma PrependTwice(a: string, b: string, r: Option<string>)
    ensures Prepend(a, Prepend(b, r)) == Prepend(a + b, r)
  {
    if r.Some? { assert a + (b + r.value) == a + b + r.value; }
  }

  lemma PrependNothing(r: Option<string>)
    ensures Prepend([], r) == r
  {
    if r.Some? { assert [] + r.value == r.value; }
  }

  /** How the loop ends: at a closing quote, at the terminator, or beyond it, where a lone backslash
      at the end has moved the terminator under the cursor. */
  datatype Scan = Closed(stop: nat) | Unclosed | PastEnd

  /** The loop as written, shifting the rest of the buffer over each backslash. `size` is the length of
      the text that starts at `start`; on success the value is what lies before `stop`. The loop leaves
      the text exactly when it ends in a lone backslash. */
  method UnescapeInPlace(line: array<char>, start: nat, size: nat) returns (scan: Scan)
    requires start + size <= line.Length
    modifies line
    ensures scan.PastEnd? <==> Dangling(old(line[start..start + size]))
    ensures scan.Closed? <==> Unescape(old(line[start..start + size])).Some?
    ensures scan.Closed? ==>
              start <= scan.stop <= line.Length && line[start..scan.stop] == Unescape(old(line[start..start + size])).value
  {
    hide Unescape, Dangling, Prepend;
    ghost var text := line[start..start + size];
    var p, n := start, start + size;
    assert line[start..p] == [];
    PrependNothing(Unescape(text));
    while p < n
      invariant start <= p <= n <= line.Length
      invariant Dangling(line[p..n]) == Dangling(text)
      invariant Unescape(text) == Prepend(line[start..p], Unescape(line[p..n]))
      decreases n - p
    {
      ghost var rest, done := line[p..n], line[start..p];
      if line[p] == '"' {
        AtQuote(done, rest);
        return Closed(p);
      }
      if line[p] == '\\' {
        if p + 1 == n {
          AtLoneBackslash(done, rest);
          return PastEnd;
        }
        AtBackslash(done, rest);
        assert rest[1] == line[p + 1] && rest[2..] == line[p + 2..n];
        DropBackslash(line, start, p, n);
        n := n - 1;
      } else {
        AtPlain(done, rest);
        assert rest[1..] == line[p + 1..n] && line[start..p + 1] == done + [rest[0]];
      }
      p := p + 1;
    }
    AtEnd(line[start..p], line[p..n]);
    return Unclosed;
  }

  lemma {:induction false} AtQuote(done: string, rest: string)
    requires rest != [] && rest[0] == '"'
    ensures Prepend(done, Unescape(rest)) == Some(done) && !Dangling(rest)
  {
    assert done + [] == done;
  }

  lemma {:induction false} AtLoneBackslash(done: string, rest: string)
    requires |rest| == 1 && rest[0] == '\\'
    ensures Prepend(done, Unescape(rest)) == None && Dangling(rest)
  {
  }

  lemma {:induction false} AtBackslash(done: string, rest: string)
    requires |rest| >= 2 && rest[0] == '\\'
    ensures Dangling(rest) == Dangling(rest[2..])
    ensures Prepend(done, Unescape(rest)) == Prepend(done + [rest[1]], Unescape(rest[2..]))
  {
    PrependTwice(done, [rest[1]], Unescape(rest[2..]));
  }

  lemma {:induction false} AtPlain(done: string, rest: string)
    requires rest != [] && !Special(rest[0])
    ensures Dangling(rest) == Dangling(rest[1..])
    ensures Prepend(done, Unescape(rest)) == Prepend(done + [rest[0]], Unescape(rest[1..]))
  {
    PrependTwice(done, [rest[0]], Unescape(rest[1..]));
  }

  lemma {:induction false} AtEnd(done: string, rest: string)
    requires rest == []
    ensures Prepend(done, Unescape(rest)) == None && !Dangling(rest)
  {
  }

  /** Takes out the backslash at p and keeps the character it protects. */
  method DropBackslash(line: array<char>, start: nat, p: nat, n: nat)
    requires start <= p && p + 1 < n <= line.Length
    modifies line
    ensures line[start..p + 1] == old(line[start..p]) + [old(line[p + 1])]
    ensures line[p + 1..n - 1] == old(line[p + 2..n])
  {
    ShiftLeft(line, p, n);
  }

  /** `memmove` of the text after p one place down. */
  method ShiftLeft(line: array<char>, p: nat, n: nat)
    requires p < n <= line.Length
    modifies line
    ensures forall i | 0 <= i < p :: line[i] == old(line[i])
    ensures forall i | p <= i < n - 1 :: line[i] == old(line[i + 1])
  {
    for k := p to n - 1
      invariant forall i | 0 <= i < p || k <= i < line.Length :: line[i] == old(line[i])
      invariant forall i | p <= i < k :: line[i] == old(line[i + 1])
    {
      line[k] := line[k + 1];
    }
  }

  // ---- Round trip -------------------------------------------------------------------------

  /** Unescaping what escaping produced gives the string back, whatever follows the closing quote. */
  lemma {:induction false} UnescapeEscape(s: string, rest: string)
    ensures Unescape(EscapeBody(s) + ['"'] + rest) == Some(s)
    ensures !Dangling(EscapeBody(s) + ['"'] + rest)
  {
    var text := EscapeBody(s) + ['"'] + rest;
    if s == [] {
      assert text[0] == '"';
    } else {
      UnescapeEscape(s[1..], rest);
      var more := EscapeBody(s[1..]) + ['"'] + rest;
      if Special(s[0]) {
        assert text == ['\\', s[0]] + more;
        assert text[2..] == more;
      } else {
        assert text == [s[0]] + more;
        assert text[1..] == more;
      }
      assert s == [s[0]] + s[1..];
    }
  }

  /** And no shorter text does: escaping adds no backslash that reading does not need. */
  lemma {:induction false} EscapeShortest(t: string)
    requires Unescape(t).Some?
    ensures |EscapeBody(Unescape(t).value) + ['"']| <= |t|
  {
    if t[0] == '"' {
    } else if t[0] == '\\' {
      EscapeShortest(t[2..]);
      assert Unescape(t).value[1..] == Unescape(t[2..]).value;
    } else {
      EscapeShortest(t[1..]);
      assert Unescape(t).value[1..] == Unescape(t[1..]).value;
    }
  }

  /** The part of a text up to its first newline, as the line reader returns it. */
  function Line(s: string): string {
    if s == [] || s[0] == '\n' then [] else [s[0]] + Line(s[1..])
  }

  /** What comes back from a file for a string value written to it. */
  function ReadBack(s: string): Option<string> {
    var line := Line(Escape(s) + ['\n']);
    if line == [] || line[0] != '"' then None else Unescape(line[1..])
  }

  lemma {:induction false} LineCut(s: string, rest: string)
    ensures '\n' !in s ==> Line(s + rest) == s + Line(rest)
  {
    if s == [] {
      assert s + rest == rest;
    } else {
      LineCut(s[1..], rest);
      assert (s + rest)[1..] == s[1..] + rest;
      assert s == [s[0]] + s[1..];
    }
  }

  lemma {:induction false} EscapeNewline(s: string)
    ensures '\n' in EscapeBody(s) <==> '\n' in s
  {
    if s != [] { EscapeNewline(s[1..]); }
  }

  /** A line cut at a newline inside the value has no closing quote. */
  lemma {:induction false} CutHasNoEnd(s: string, rest: string)
    requires '\n' in s
    ensures Unescape(Line(EscapeBody(s) + rest)) == None
  {
    if s[0] != '\n' {
      assert s == [s[0]] + s[1..];
      CutHasNoEnd(s[1..], rest);
      var more := EscapeBody(s[1..]) + rest;
      if Special(s[0]) {
        assert EscapeBody(s) + rest == ['\\', s[0]] + more;
        assert ['\\', s[0]] + more == ['\\'] + ([s[0]] + more);
        assert (['\\'] + ([s[0]] + Line(more)))[2..] == Line(more);
      } else {
        assert EscapeBody(s) + rest == [s[0]] + more;
        assert ([s[0]] + Line(more))[1..] == Line(more);
      }
    }
  }

  /** A string value survives writing and reading exactly when it holds no newline. */
  lemma ReadBackIff(s: string)
    ensures ReadBack(s) == Some(s) <==> '\n' !in s
  {
    var body := EscapeBody(s);
    var end := ['"', '\n'];
    assert Escape(s) + ['\n'] == ['"'] + (body + end);
    assert Line(['"'] + (body + end)) == ['"'] + Line(body + end) by {
      assert (['"'] + (body + end))[1..] == body + end;
    }
    if '\n' in s {
      CutHasNoEnd(s, end);
    } else {
      EscapeNewline(s);
      LineCut(body, end);
      assert end[1..] == ['\n'];
      assert Line(end) == ['"'] + Line(['\n']) == ['"'];
      assert body + ['"'] == body + ['"'] + [];
      UnescapeEscape(s, []);
      var line := Line(Escape(s) + ['\n']);
      assert line == ['"'] + (body + ['"']);
      assert line[1..] == body + ['"'];
    }
  }
}
