/** TEXT values per section 3.3.11 of RFC 5545: the escaping replacer and the reader that undoes it. */
module Escaping {
  import Utf8

  predicate CrLf(s: string) {
    |s| >= 2 && s[0] == '\r' && s[1] == '\n'
  }

  /** The replacer tries its pairs in order at each position, so a CRLF is one replacement. */
  function Escape(s: string): string {
    if s == "" then ""
    else if s[0] == '\\' then "\\\\" + Escape(s[1..])
    else if CrLf(s) then "\\n" + Escape(s[2..])
    else if s[0] == '\r' || s[0] == '\n' then "\\n" + Escape(s[1..])
    else if s[0] == ',' then "\\," + Escape(s[1..])
    else if s[0] == ';' then "\\;" + Escape(s[1..])
    else [s[0]] + Escape(s[1..])
  }

  /** Every line break style becomes a single newline. */
  function Normal(s: string): string {
    if s == "" then ""
    else if CrLf(s) then "\n" + Normal(s[2..])
    else if s[0] == '\r' then "\n" + Normal(s[1..])
    else [s[0]] + Normal(s[1..])
  }

  /** The reader: a backslash protects the next character, `\n` and `\N` stand for a newline. */
  function Unescape(s: string): string {
    if s == "" then ""
    else if s[0] == '\\' && |s| >= 2 then
      (if s[1] == 'n' || s[1] == 'N' then "\n" else [s[1]]) + Unescape(s[2..])
    else [s[0]] + Unescape(s[1..])
  }

  /** Commas and semicolons occur only behind a protecting backslash, raw line breaks not at all. */
  predicate WellEscaped(s: string) {
    s == "" ||
    if s[0] == '\\' then |s| >= 2 && s[1] in {'\\', 'n', ',', ';'} && WellEscaped(s[2..])
    else s[0] != ',' && s[0] != ';' && s[0] != '\r' && s[0] != '\n' && WellEscaped(s[1..])
  }

  lemma UnescapePair(c: char, rest: string)
    ensures Unescape(['\\', c] + rest) == (if c == 'n' || c == 'N' then "\n" else [c]) + Unescape(rest)
    ensures c in {'\\', 'n', ',', ';'} && WellEscaped(rest) ==> WellEscaped(['\\', c] + rest)
  {
    assert (['\\', c] + rest)[2..] == rest;
  }

  lemma UnescapePlain(c: char, rest: string)
    requires c != '\\'
    ensures Unescape([c] + rest) == [c] + Unescape(rest)
    ensures c != ',' && c != ';' && c != '\r' && c != '\n' && WellEscaped(rest) ==> WellEscaped([c] + rest)
  {
    assert ([c] + rest)[1..] == rest;
  }

  /** Reading an escaped text gives the text with its line breaks normalised; nothing else is lost. */
  lemma {:induction false} UnescapeEscape(s: string)
    ensures Unescape(Escape(s)) == Normal(s)
    ensures WellEscaped(Escape(s))
  {
    if s != "" {
      var rest := if CrLf(s) then s[2..] else s[1..];
      UnescapeEscape(rest);
      if s[0] == '\\' || s[0] == ',' || s[0] == ';' {
        UnescapePair(s[0], Escape(rest));
      } else if s[0] == '\r' || s[0] == '\n' {
        UnescapePair('n', Escape(rest));
      } else {
        UnescapePlain(s[0], Escape(rest));
      }
    }
  }

  /** Escaping sees only the normal form. */
  lemma {:induction false} EscapeOfNormal(s: string)
    ensures Escape(Normal(s)) == Escape(s)
  {
    if s != "" {
      var rest := if CrLf(s) then s[2..] else s[1..];
      EscapeOfNormal(rest);
      var c := if s[0] == '\r' then '\n' else s[0];
      assert Normal(s) == [c] + Normal(rest);
      assert Normal(s)[1..] == Normal(rest);
    }
  }

  /** Two texts look the same in the feed exactly when they differ at most in their line break style. */
  lemma EscapeAlikeIff(s: string, t: string)
    ensures Escape(s) == Escape(t) <==> Normal(s) == Normal(t)
  {
    UnescapeEscape(s);
    UnescapeEscape(t);
    EscapeOfNormal(s);
    EscapeOfNormal(t);
  }

  lemma {:induction false} WellEscapedHasNoLineBreak(s: string)
    requires WellEscaped(s)
    ensures forall i :: 0 <= i < |s| ==> s[i] != '\r' && s[i] != '\n'
  {
    if s != "" {
      WellEscapedHasNoLineBreak(if s[0] == '\\' then s[2..] else s[1..]);
    }
  }

  // ---------- UTF-8 ----------

  /** The octets of a longer character are copied. */
  lemma {:induction false} EscapeCopiesTail(s: string, n: nat)
    requires n <= |s| && forall i :: 0 <= i < n ==> s[i] as int >= 0x80
    ensures Escape(s) == s[..n] + Escape(s[n..])
  {
    if n > 0 {
      EscapeCopiesTail(s[1..], n - 1);
      assert s[1..][n - 1..] == s[n..];
      assert s[..n] == [s[0]] + s[1..][..n - 1];
    }
  }

  lemma EscapeNothing()
    ensures Escape("") == ""
  {}

  /** An ASCII character, or a CRLF, becomes ASCII characters. */
  lemma EscapeStep(s: string) returns (head: string, rest: string)
    requires s != "" && Utf8.Between(s[0], 0x00, 0x7F)
    ensures rest == (if CrLf(s) then s[2..] else s[1..]) && Utf8.Ascii(head) && Escape(s) == head + Escape(rest)
  {
    rest := if CrLf(s) then s[2..] else s[1..];
    head := if s[0] == '\r' || s[0] == '\n' then "\\n"
            else if s[0] == '\\' || s[0] == ',' || s[0] == ';' then ['\\', s[0]] else [s[0]];
  }

  /** Escaping keeps UTF-8: it only ever touches ASCII characters. */
  lemma {:induction false} EscapeKeepsUtf8(s: string)
    requires Utf8.Valid(s)
    ensures Utf8.Valid(Escape(s))
  {
    hide Escape;
    if s == "" {
      EscapeNothing();
    } else {
      var n := Utf8.RuneLen(s);
      if Utf8.Between(s[0], 0x00, 0x7F) {
        var head, rest := EscapeStep(s);
        if CrLf(s) {
          assert s[1..][1..] == s[2..];
        }
        EscapeKeepsUtf8(rest);
        Utf8.AsciiIsValid(head);
        Utf8.ValidConcat(head, Escape(rest));
      } else {
        EscapeCopiesTail(s, n);
        EscapeKeepsUtf8(s[n..]);
        Utf8.CutBetweenRunes(s, n);
        Utf8.ValidConcat(s[..n], Escape(s[n..]));
      }
    }
  }
}
