/**
 UTF-8 as section 4 of RFC 3629 defines it.  A Go string is a sequence of octets; here it is a Dafny string
 whose characters are octets.
 */
module Utf8 {
  predicate Between(c: char, lo: int, hi: int) {
    lo <= c as int <= hi
  }

  predicate Tail(c: char) {
    Between(c, 0x80, 0xBF)
  }

  /** `utf8.RuneStart`: any octet that is not a continuation octet. */
  predicate RuneStart(c: char) {
    !Tail(c)
  }

  /** The length of the well-formed character at the front, 0 if there is none. */
  function RuneLen(s: string): (n: nat)
    ensures n <= |s| && n <= 4
    ensures forall i :: 1 <= i < n ==> Tail(s[i])
    ensures n > 0 ==> RuneStart(s[0])
  {
    if s == "" then 0
    else if Between(s[0], 0x00, 0x7F) then 1
    else if |s| >= 2 && Between(s[0], 0xC2, 0xDF) && Tail(s[1]) then 2
    else if |s| >= 3 && Tail(s[1]) && Tail(s[2]) &&
            (|| (Between(s[0], 0xE0, 0xE0) && Between(s[1], 0xA0, 0xBF))
             || Between(s[0], 0xE1, 0xEC)
             || (Between(s[0], 0xED, 0xED) && Between(s[1], 0x80, 0x9F))
             || Between(s[0], 0xEE, 0xEF)) then 3
    else if |s| >= 4 && Tail(s[1]) && Tail(s[2]) && Tail(s[3]) &&
            (|| (Between(s[0], 0xF0, 0xF0) && Between(s[1], 0x90, 0xBF))
             || Between(s[0], 0xF1, 0xF3)
             || (Between(s[0], 0xF4, 0xF4) && Between(s[1], 0x80, 0x8F))) then 4
    else 0
  }

  predicate Valid(s: string) {
    s == "" || (RuneLen(s) > 0 && Valid(s[RuneLen(s)..]))
  }

  /** Only the octets of a character decide about it. */
  lemma RuneLenPrefix(s: string, k: nat)
    requires 0 < RuneLen(s) <= k <= |s|
    ensures RuneLen(s[..k]) == RuneLen(s)
  {}

  /** Cutting valid text in front of a character leaves two valid texts. */
  lemma {:induction false} CutBetweenRunes(s: string, k: nat)
    requires Valid(s) && k <= |s| && (k < |s| ==> RuneStart(s[k]))
    ensures Valid(s[..k]) && Valid(s[k..])
  {
    hide RuneLen;
    if k == 0 {
      assert s[k..] == s;
    } else {
      var n := RuneLen(s);
      CutBetweenRunes(s[n..], k - n);
      RuneLenPrefix(s, k);
      assert s[..k][n..] == s[n..][..k - n];
      assert s[n..][k - n..] == s[k..];
    }
  }

  /** In valid text a character starts at most three octets before any position. */
  lemma {:induction false} RuneStartNearby(s: string, k: nat) returns (j: nat)
    requires Valid(s) && k < |s|
    ensures j <= k && k - j <= 3 && RuneStart(s[j])
  {
    var n := RuneLen(s);
    if k < n {
      j := 0;
    } else {
      j := RuneStartNearby(s[n..], k - n);
      j := j + n;
    }
  }

  lemma RuneLenExtends(s: string, rest: string)
    requires RuneLen(s) > 0
    ensures RuneLen(s + rest) == RuneLen(s)
  {}

  /** Valid texts make a valid text. */
  lemma {:induction false} ValidConcat(s: string, t: string)
    requires Valid(s) && Valid(t)
    ensures Valid(s + t)
  {
    hide RuneLen;
    if s == "" {
      assert s + t == t;
    } else {
      var n := RuneLen(s);
      RuneLenExtends(s, t);
      ValidConcat(s[n..], t);
      assert (s + t)[n..] == s[n..] + t;
    }
  }

  predicate Ascii(s: string) {
    forall i :: 0 <= i < |s| ==> Between(s[i], 0x00, 0x7F)
  }

  lemma {:induction false} AsciiIsValid(s: string)
    requires Ascii(s)
    ensures Valid(s)
  {
    if s != "" {
      AsciiIsValid(s[1..]);
    }
  }

  /** Behind an ASCII character a valid text goes on validly. */
  lemma AfterAscii(s: string)
    requires Valid(s) && s != "" && Between(s[0], 0x00, 0x7F)
    ensures Valid(s[1..])
  {}
}
