/**
 Line folding and unfolding per section 3.1 of RFC 5545.  The printer folds each logical line into chunks; the
 reference reader removes every line break that is followed by a blank and then splits at the remaining
 line breaks.
 */
module Folding {
  import Utf8

  const CRLF: string := "\r\n"
  const FOLD_AT: nat := 73

  // ---------- Splitting ----------

  /** Backs up from `cut` while it points into the middle of a character. */
  function BackUp(s: string, cut: nat): (c: nat)
    requires cut < |s|
    ensures c <= cut && (c > 0 ==> Utf8.RuneStart(s[c]))
    ensures forall i :: c < i <= cut ==> !Utf8.RuneStart(s[i])
  {
    if cut > 0 && !Utf8.RuneStart(s[cut]) then BackUp(s, cut - 1) else cut
  }

  function CutAt(s: string, n: nat): (c: nat)
    requires 1 <= n < |s|
    ensures 1 <= c <= n
  {
    var c := BackUp(s, n);
    if c == 0 then n else c
  }

  function Split(s: string, n: nat): (chunks: seq<string>)
    requires n >= 1
    ensures |chunks| >= 1
  {
    if |s| <= n then [s] else [s[..CutAt(s, n)]] + Split(s[CutAt(s, n)..], n)
  }

  lemma SplitStep(out: seq<string>, s: string, n: nat)
    requires 1 <= n < |s|
    ensures out + Split(s, n) == out + [s[..CutAt(s, n)]] + Split(s[CutAt(s, n)..], n)
  {}

  lemma SplitShort(s: string, n: nat)
    requires n >= 1 && |s| <= n
    ensures Split(s, n) == [s]
  {}

  /** The two nested loops. */
  method SplitLine(line: string, n: nat) returns (out: seq<string>)
    requires n >= 1
    ensures out == Split(line, n)
  {
    hide Split;
    if |line| <= n {
      SplitShort(line, n);
      return [line];
    }
    out := [];
    var s := line;
    while |s| > n
      invariant out + Split(s, n) == Split(line, n)
      decreases |s|
    {
      var cut := n;
      while cut > 0 && !Utf8.RuneStart(s[cut])
        invariant cut <= n && BackUp(s, cut) == BackUp(s, n)
      {
        cut := cut - 1;
      }
      if cut == 0 {
        cut := n;
      }
      SplitStep(out, s, n);
      out := out + [s[..cut]];
      s := s[cut..];
    }
    SplitShort(s, n);
    out := out + [s];
  }

  function Concat(chunks: seq<string>): string {
    if chunks == [] then "" else chunks[0] + Concat(chunks[1..])
  }

  /** The chunks are short, none is empty unless the line is, and together they are the line. */
  lemma {:induction false} SplitIsLossless(s: string, n: nat)
    requires n >= 1
    ensures Concat(Split(s, n)) == s
    ensures forall i :: 0 <= i < |Split(s, n)| ==> |Split(s, n)[i]| <= n && (s != "" ==> Split(s, n)[i] != "")
  {
    if |s| <= n {
      assert Split(s, n)[1..] == [];
      assert Concat(Split(s, n)) == s + Concat([]);
    } else {
      var c := CutAt(s, n);
      SplitIsLossless(s[c..], n);
      assert Split(s, n)[1..] == Split(s[c..], n);
      assert s == s[..c] + s[c..];
    }
  }

  /** With room for the longest character, valid UTF-8 is only cut between characters. */
  lemma {:induction false} SplitKeepsUtf8(s: string, n: nat)
    requires n >= 4 && Utf8.Valid(s)
    ensures forall i :: 0 <= i < |Split(s, n)| ==> Utf8.Valid(Split(s, n)[i])
  {
    if |s| > n {
      var j := Utf8.RuneStartNearby(s, n);
      var c := CutAt(s, n);
      assert BackUp(s, n) >= j;
      Utf8.CutBetweenRunes(s, c);
      SplitKeepsUtf8(s[c..], n);
    }
  }

  /**
   Where a text that is too long is cut first, for any octets: at the last start of a character that leaves at most `n`
   of them, or after `n` if no character starts there.
   */
  lemma FirstCut(s: string, n: nat)
    requires 1 <= n < |s|
    ensures var c := |Split(s, n)[0]|;
            && Split(s, n)[0] == s[..c] && 1 <= c <= n
            && (forall i :: c < i <= n ==> s[i] as int / 64 == 2)
            && (s[c] as int / 64 != 2 || (c == n && forall i :: 1 <= i <= n ==> s[i] as int / 64 == 2))
  {
    assert forall x: char :: Utf8.Tail(x) <==> x as int / 64 == 2;
  }

  /** No chunk but the last is cut shorter than a character could require. */
  lemma {:induction false} ChunksAreFull(s: string, n: nat, i: nat)
    requires n >= 4 && Utf8.Valid(s) && i < |Split(s, n)| - 1
    ensures n - 3 <= |Split(s, n)[i]| <= n
  {
    var j := Utf8.RuneStartNearby(s, n);
    var c := CutAt(s, n);
    assert BackUp(s, n) >= j;
    if i > 0 {
      Utf8.CutBetweenRunes(s, c);
      ChunksAreFull(s[c..], n, i - 1);
    }
  }

  ghost predicate AlwaysUtf8(n: nat)
    requires n >= 1
  {
    forall s :: Utf8.Valid(s) ==> forall i :: 0 <= i < |Split(s, n)| ==> Utf8.Valid(Split(s, n)[i])
  }

  /** Four octets is exactly the limit from which splitting respects every valid text. */
  lemma SplitKeepsUtf8Iff(n: nat)
    requires n >= 1
    ensures AlwaysUtf8(n) <==> n >= 4
  {
    if n >= 4 {
      forall s | Utf8.Valid(s) ensures forall i :: 0 <= i < |Split(s, n)| ==> Utf8.Valid(Split(s, n)[i]) {
        SplitKeepsUtf8(s, n);
      }
    } else {
      var s := "\U{F0}\U{9F}\U{9A}\U{80}";  // one character of four octets
      assert s[4..] == "";
      assert Utf8.Valid(s);
      assert BackUp(s, n) == 0 by {
        assert !Utf8.RuneStart(s[1]) && !Utf8.RuneStart(s[2]) && !Utf8.RuneStart(s[3]);
      }
      assert Split(s, n)[0] == s[..n];
      assert Utf8.RuneLen(s[..n]) == 0;
    }
  }

  // ---------- Folding ----------

  /** Continuation chunks: each on a line of its own, introduced by a space. */
  function Continued(chunks: seq<string>): string {
    if chunks == [] then "" else " " + chunks[0] + CRLF + Continued(chunks[1..])
  }

  function Fold(line: string): string {
    var chunks := Split(line, FOLD_AT);
    chunks[0] + CRLF + Continued(chunks[1..])
  }

  lemma {:induction false} ContinuedLength(chunks: seq<string>)
    ensures |Continued(chunks)| == |Concat(chunks)| + 3 * |chunks|
  {
    if chunks != [] {
      ContinuedLength(chunks[1..]);
    }
  }

  lemma FoldIsLonger(chunks: seq<string>, line: string)
    requires |chunks| >= 2 && Concat(chunks) == line
    ensures |chunks[0] + CRLF + Continued(chunks[1..])| > |line + CRLF|
  {
    ContinuedLength(chunks[1..]);
  }

  /** Lines of up to 73 octets are printed as they are, and only those. */
  lemma FoldsOnlyLongLines(line: string)
    ensures Fold(line) == line + CRLF <==> |line| <= 73
  {
    SplitIsLossless(line, FOLD_AT);
    var chunks := Split(line, FOLD_AT);
    if |line| > 73 {
      FoldIsLonger(chunks, line);
    } else {
      assert chunks[1..] == [];
    }
  }

  function FoldAll(lines: seq<string>): string {
    if lines == [] then "" else Fold(lines[0]) + FoldAll(lines[1..])
  }

  // ---------- The reference reader ----------

  predicate Blank(c: char) {
    c == ' ' || c == '\t'
  }

  predicate BreakAt(s: string, i: nat) {
    i + 1 < |s| && s[i] == '\r' && s[i + 1] == '\n'
  }

  /** Deletes every line break immediately followed by a blank, together with the blank. */
  function Unfold(s: string): string {
    if s == "" then ""
    else if BreakAt(s, 0) && |s| >= 3 && Blank(s[2]) then Unfold(s[3..])
    else [s[0]] + Unfold(s[1..])
  }

  /** The first line break at or after `i`, or the end. */
  function NextBreak(s: string, i: nat): (j: nat)
    requires i <= |s|
    ensures i <= j <= |s| && (j < |s| ==> BreakAt(s, j))
    ensures forall k :: i <= k < j ==> !BreakAt(s, k)
    decreases |s| - i
  {
    if i == |s| || BreakAt(s, i) then i else NextBreak(s, i + 1)
  }

  function Lines(s: string): seq<string> {
    if s == "" then []
    else
      var j := NextBreak(s, 0);
      if j == |s| then [s] else [s[..j]] + Lines(s[j + 2..])
  }

  predicate NoBreak(s: string) {
    forall i :: 0 <= i < |s| ==> !BreakAt(s, i)
  }

  predicate StartsPlain(s: string) {
    s == "" || !Blank(s[0])
  }

  // ---------- Reading undoes printing ----------

  /** Text without a line break is copied, even if it ends in a lone carriage return before a real break. */
  lemma {:induction false} UnfoldCopies(s: string, rest: string)
    requires NoBreak(s) && (rest != "" ==> rest[0] != '\n')
    ensures Unfold(s + rest) == s + Unfold(rest)
  {
    if s == "" {
      assert s + rest == rest;
    } else {
      assert (s + rest)[1..] == s[1..] + rest;
      assert !BreakAt(s + rest, 0) by {
        assert !BreakAt(s, 0);
      }
      forall i | 0 <= i < |s[1..]| ensures !BreakAt(s[1..], i) {
        assert !BreakAt(s, i + 1);
      }
      UnfoldCopies(s[1..], rest);
    }
  }

  lemma UnfoldKeepsBreak(rest: string)
    requires StartsPlain(rest)
    ensures Unfold(CRLF + rest) == CRLF + Unfold(rest)
  {
    var s := CRLF + rest;
    assert s[1..] == "\n" + rest && ("\n" + rest)[1..] == rest;
    assert Unfold("\n" + rest) == "\n" + Unfold(rest);
  }

  lemma UnfoldDropsFold(rest: string)
    ensures Unfold(CRLF + " " + rest) == Unfold(rest)
  {
    var s := CRLF + " " + rest;
    assert s[3..] == rest;
  }

  lemma NoBreakParts(s: string, k: nat)
    requires NoBreak(s) && k <= |s|
    ensures NoBreak(s[..k]) && NoBreak(s[k..])
  {
    forall i | 0 <= i < |s[..k]| ensures !BreakAt(s[..k], i) {
      assert !BreakAt(s, i);
    }
    forall i | 0 <= i < |s[k..]| ensures !BreakAt(s[k..], i) {
      assert !BreakAt(s, k + i);
    }
  }

  lemma Regroup(a: string, b: string, c: string, d: string)
    ensures a + (b + c + d) == a + b + c + d
  {}

  lemma Renest(end: string, blank: string, chunk: string, more: string, rest: string)
    ensures end + (blank + chunk + end + more) + rest == end + blank + (chunk + (end + more + rest))
  {
    assert blank + chunk + end + more == blank + (chunk + (end + more));
    assert end + (blank + (chunk + (end + more))) == end + blank + (chunk + (end + more));
  }

  lemma ContinuedStep(chunks: seq<string>, rest: string)
    requires chunks != []
    ensures CRLF + Continued(chunks) + rest == CRLF + " " + (chunks[0] + (CRLF + Continued(chunks[1..]) + rest))
  {
    var more := Continued(chunks[1..]);
    assert Continued(chunks) == " " + chunks[0] + CRLF + more;
    Renest(CRLF, " ", chunks[0], more, rest);
  }

  lemma {:induction false} UnfoldContinued(chunks: seq<string>, rest: string)
    requires forall i :: 0 <= i < |chunks| ==> NoBreak(chunks[i])
    ensures Unfold(CRLF + Continued(chunks) + rest) == Concat(chunks) + Unfold(CRLF + rest)
  {
    if chunks == [] {
      assert CRLF + Continued(chunks) + rest == CRLF + rest;
      assert Concat(chunks) + Unfold(CRLF + rest) == Unfold(CRLF + rest);
    } else {
      var tail := CRLF + Continued(chunks[1..]) + rest;
      ContinuedStep(chunks, rest);
      UnfoldDropsFold(chunks[0] + tail);
      UnfoldCopies(chunks[0], tail);
      UnfoldContinued(chunks[1..], rest);
      assert chunks[0] + (Concat(chunks[1..]) + Unfold(CRLF + rest)) == Concat(chunks) + Unfold(CRLF + rest);
    }
  }

  lemma {:induction false} ChunksNoBreak(s: string, n: nat)
    requires n >= 1 && NoBreak(s)
    ensures forall i :: 0 <= i < |Split(s, n)| ==> NoBreak(Split(s, n)[i])
  {
    if |s| > n {
      NoBreakParts(s, CutAt(s, n));
      ChunksNoBreak(s[CutAt(s, n)..], n);
    }
  }

  lemma UnfoldFold(line: string, rest: string)
    requires NoBreak(line)
    ensures Unfold(Fold(line) + rest) == line + Unfold(CRLF + rest)
  {
    var chunks := Split(line, FOLD_AT);
    SplitIsLossless(line, FOLD_AT);
    ChunksNoBreak(line, FOLD_AT);
    var tail := CRLF + Continued(chunks[1..]) + rest;
    Regroup(chunks[0], CRLF, Continued(chunks[1..]), rest);
    UnfoldCopies(chunks[0], tail);
    UnfoldContinued(chunks[1..], rest);
    assert chunks[0] + (Concat(chunks[1..]) + Unfold(CRLF + rest)) == line + Unfold(CRLF + rest);
  }

  function Terminated(lines: seq<string>): string {
    if lines == [] then "" else lines[0] + CRLF + Terminated(lines[1..])
  }

  /** How many lines look like a continuation of the line before. */
  function Joins(lines: seq<string>): nat {
    if |lines| <= 1 then 0 else (if StartsPlain(lines[1]) then 0 else 1) + Joins(lines[1..])
  }

  lemma {:induction false} NoJoinsIff(lines: seq<string>)
    ensures Joins(lines) == 0 <==> forall i :: 1 <= i < |lines| ==> StartsPlain(lines[i])
  {
    if |lines| > 1 {
      NoJoinsIff(lines[1..]);
      if forall i :: 1 <= i < |lines[1..]| ==> StartsPlain(lines[1..][i]) {
        forall i | 2 <= i < |lines| ensures StartsPlain(lines[i]) {
          assert lines[1..][i - 1] == lines[i];
        }
      }
    }
  }

  lemma FoldStart(line: string, rest: string)
    ensures StartsPlain(Fold(line) + rest) <==> StartsPlain(line)
    ensures line != "" ==> (Fold(line) + rest)[0] == line[0]
  {
    SplitIsLossless(line, FOLD_AT);
    var chunks := Split(line, FOLD_AT);
    if line != "" {
      assert chunks[0] != "" && Concat(chunks)[0] == chunks[0][0];
      assert (Fold(line) + rest)[0] == chunks[0][0];
    }
  }

  /** A break is kept in front of plain text, and swallowed together with a blank that follows. */
  lemma UnfoldAfterBreak(s: string)
    ensures StartsPlain(s) ==> Unfold(CRLF + s) == CRLF + Unfold(s)
    ensures !StartsPlain(s) ==> |Unfold(CRLF + s)| + 1 == |Unfold(s)|
  {
    if StartsPlain(s) {
      UnfoldKeepsBreak(s);
    } else {
      assert (CRLF + s)[3..] == s[1..];
      assert Unfold(s) == [s[0]] + Unfold(s[1..]);
    }
  }

  lemma UnfoldNothing()
    ensures Unfold("") == ""
  {}

  /** Unfolding loses three octets for every line that looks like a continuation, and otherwise only the folds. */
  lemma {:induction false} UnfoldAll(lines: seq<string>)
    requires forall i :: 0 <= i < |lines| ==> NoBreak(lines[i])
    ensures |Unfold(FoldAll(lines))| + 3 * Joins(lines) == |Terminated(lines)|
    ensures Joins(lines) == 0 ==> Unfold(FoldAll(lines)) == Terminated(lines)
  {
    hide Unfold, Fold, NoBreak;
    if lines == [] {
      UnfoldNothing();
    } else {
      var rest := FoldAll(lines[1..]);
      UnfoldAll(lines[1..]);
      UnfoldFold(lines[0], rest);
      UnfoldAfterBreak(rest);
      if |lines| > 1 {
        FoldStart(lines[1], FoldAll(lines[1..][1..]));
      }
      assert lines[0] + (CRLF + Terminated(lines[1..])) == Terminated(lines);
    }
  }

  lemma LinesStep(line: string, rest: string)
    requires NoBreak(line)
    ensures Lines(line + CRLF + rest) == [line] + Lines(rest)
  {
    var s := line + CRLF + rest;
    var n := |line|;
    forall k | 0 <= k < n ensures !BreakAt(s, k) {
      assert !BreakAt(line, k);
    }
    assert BreakAt(s, n);
    assert NextBreak(s, 0) == n;
    assert s[..n] == line && s[n + 2..] == rest;
  }

  lemma {:induction false} LinesOfTerminated(lines: seq<string>)
    requires forall i :: 0 <= i < |lines| ==> NoBreak(lines[i])
    ensures Lines(Terminated(lines)) == lines
  {
    if lines != [] {
      LinesOfTerminated(lines[1..]);
      LinesStep(lines[0], Terminated(lines[1..]));
      assert Terminated(lines) == lines[0] + CRLF + Terminated(lines[1..]);
    }
  }

  /** No line the reader returns contains a line break. */
  lemma {:induction false} LinesHaveNoBreak(s: string)
    ensures forall i :: 0 <= i < |Lines(s)| ==> NoBreak(Lines(s)[i])
  {
    if s != "" {
      var j := NextBreak(s, 0);
      if j < |s| {
        LinesHaveNoBreak(s[j + 2..]);
        forall i | 0 <= i < j ensures !BreakAt(s[..j], i) {
          assert !BreakAt(s, i);
        }
      }
    }
  }

  /** Splitting into lines forgets at most the final line break. */
  lemma {:induction false} LinesLength(s: string)
    ensures |Terminated(Lines(s))| <= |s| + 2
  {
    if s != "" {
      var j := NextBreak(s, 0);
      if j == |s| {
        assert [s][1..] == [] && Terminated([s]) == s + CRLF + Terminated([]);
      } else {
        LinesLength(s[j + 2..]);
        assert Lines(s)[1..] == Lines(s[j + 2..]);
      }
    }
  }

  /**
   Reading what was printed gives back exactly the logical lines if and only if none of them contains a line break of
   its own and none but the first starts with a blank.
   */
  lemma ReadingUndoesPrintingIff(lines: seq<string>)
    ensures Lines(Unfold(FoldAll(lines))) == lines <==>
            && (forall i :: 0 <= i < |lines| ==> NoBreak(lines[i]))
            && forall i :: 1 <= i < |lines| ==> StartsPlain(lines[i])
  {
    NoJoinsIff(lines);
    if forall i :: 0 <= i < |lines| ==> NoBreak(lines[i]) {
      UnfoldAll(lines);
      LinesOfTerminated(lines);
      LinesLength(Unfold(FoldAll(lines)));
    } else {
      LinesHaveNoBreak(Unfold(FoldAll(lines)));
    }
  }
}
