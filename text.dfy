/** Whitespace trimming and case mapping, as the two servers and the browser client apply them
    to room codes, usernames, passwords and message content. */
module Text {

  /** JavaScript's `String.prototype.trim` and Java's `String.trim` strip different characters. */
  datatype Dialect = Js | Java

  /** Java strips every character up to U+0020; JavaScript strips the ECMAScript
      WhiteSpace and LineTerminator characters. */
  predicate IsSpace(d: Dialect, c: char)
  {
    match d
    case Java => c <= ' '
    case Js =>
      || c == ' ' || c == '\t' || c == '\n' || c == '\r' || c == '\U{B}' || c == '\U{C}'
      || c == '\U{A0}' || c == '\U{1680}' || ('\U{2000}' <= c <= '\U{200A}')
      || c == '\U{2028}' || c == '\U{2029}' || c == '\U{202F}' || c == '\U{205F}'
      || c == '\U{3000}' || c == '\U{FEFF}'
  }

  /** Empty or whitespace only: what `!s.trim()` and `s.trim().isEmpty()` test. */
  predicate IsBlank(d: Dialect, s: string)
  {
    forall i :: 0 <= i < |s| ==> IsSpace(d, s[i])
  }

  /** The number of leading whitespace characters. */
  function LeadingSpaces(d: Dialect, s: string): (k: nat)
    ensures k <= |s|
    ensures forall i :: 0 <= i < k ==> IsSpace(d, s[i])
    ensures k < |s| ==> !IsSpace(d, s[k])
  {
    if s == [] || !IsSpace(d, s[0]) then 0 else 1 + LeadingSpaces(d, s[1..])
  }

  /** The number of trailing whitespace characters. */
  function TrailingSpaces(d: Dialect, s: string): (k: nat)
    ensures k <= |s|
    ensures forall i :: |s| - k <= i < |s| ==> IsSpace(d, s[i])
    ensures k < |s| ==> !IsSpace(d, s[|s| - 1 - k])
  {
    if s == [] || !IsSpace(d, s[|s| - 1]) then 0 else 1 + TrailingSpaces(d, s[..|s| - 1])
  }

  /** `s.trim()` in the given dialect. */
  function Trim(d: Dialect, s: string): (r: string)
    ensures |r| <= |s|
    ensures r == [] <==> IsBlank(d, s)
    ensures r != [] ==> !IsSpace(d, r[0]) && !IsSpace(d, r[|r| - 1])
  {
    var t := s[LeadingSpaces(d, s)..];
    var r := t[..|t| - TrailingSpaces(d, t)];
    assert LeadingSpaces(d, s) < |s| ==> r != [] by {
      if LeadingSpaces(d, s) < |s| {
        assert !IsSpace(d, t[0]);
      }
    }
    r
  }

  /** Trim removes a blank prefix and a blank suffix and nothing else. */
  lemma TrimSplits(d: Dialect, s: string) returns (pre: string, post: string)
    ensures s == pre + Trim(d, s) + post
    ensures IsBlank(d, pre) && IsBlank(d, post)
  {
    var k := LeadingSpaces(d, s);
    var t := s[k..];
    var j := |t| - TrailingSpaces(d, t);
    pre, post := s[..k], t[j..];
    BlankPrefix(d, s, k);
    BlankSuffix(d, t, j);
    var trimmed := Trim(d, s);
    assert trimmed == t[..j];
    assert t == trimmed + post;
    assert s == pre + t;
    AppendAssoc(pre, trimmed, post);
  }

  lemma AppendAssoc<T>(a: seq<T>, b: seq<T>, c: seq<T>)
    ensures a + b + c == a + (b + c)
  {
  }

  lemma BlankPrefix(d: Dialect, s: string, k: nat)
    requires k <= |s| && forall i :: 0 <= i < k ==> IsSpace(d, s[i])
    ensures IsBlank(d, s[..k])
  {
    forall i | 0 <= i < k ensures IsSpace(d, s[..k][i]) {
      assert s[..k][i] == s[i];
    }
  }

  lemma BlankSuffix(d: Dialect, t: string, j: nat)
    requires j <= |t| && forall i :: j <= i < |t| ==> IsSpace(d, t[i])
    ensures IsBlank(d, t[j..])
  {
    forall i | 0 <= i < |t| - j ensures IsSpace(d, t[j..][i]) {
      assert t[j..][i] == t[j + i];
    }
  }

  /** Conversely, a word with non-blank ends survives any blank padding: with TrimSplits this
      says that Trim is exactly "strip the blank ends". */
  lemma {:induction false} TrimPadded(d: Dialect, pre: string, x: string, post: string)
    requires IsBlank(d, pre) && IsBlank(d, post)
    requires x != [] ==> !IsSpace(d, x[0]) && !IsSpace(d, x[|x| - 1])
    ensures Trim(d, pre + x + post) == x
  {
    var s := pre + x + post;
    if x == [] {
      assert IsBlank(d, s) by {
        forall i | 0 <= i < |s| ensures IsSpace(d, s[i]) {
          if i < |pre| { assert s[i] == pre[i]; } else { assert s[i] == post[i - |pre|]; }
        }
      }
    } else {
      AppendAssoc(pre, x, post);
      LeadingOfPadded(d, pre, x + post);
      var t := s[|pre|..];
      assert t == x + post;
      TrailingOfPadded(d, x, post);
      assert t[..|t| - |post|] == x;
    }
  }

  lemma {:induction false} LeadingOfPadded(d: Dialect, pre: string, rest: string)
    requires IsBlank(d, pre)
    requires rest != [] && !IsSpace(d, rest[0])
    ensures LeadingSpaces(d, pre + rest) == |pre|
  {
    if pre != [] {
      assert (pre + rest)[1..] == pre[1..] + rest;
      LeadingOfPadded(d, pre[1..], rest);
    }
  }

  lemma {:induction false} TrailingOfPadded(d: Dialect, rest: string, post: string)
    requires IsBlank(d, post)
    requires rest != [] && !IsSpace(d, rest[|rest| - 1])
    ensures TrailingSpaces(d, rest + post) == |post|
  {
    if post != [] {
      assert (rest + post)[..|rest + post| - 1] == rest + post[..|post| - 1];
      TrailingOfPadded(d, rest, post[..|post| - 1]);
    }
  }

  /** Trimming twice is trimming once. */
  lemma TrimIdempotent(d: Dialect, s: string)
    ensures Trim(d, Trim(d, s)) == Trim(d, s)
  {
    var t := Trim(d, s);
    assert t == [] + t + [];
    TrimPadded(d, [], t, []);
  }

  /** `c.toUpperCase()` on the ASCII letters; every other character is kept. */
  function UpperChar(c: char): char
  {
    if 'a' <= c <= 'z' then (c as int - 32) as char else c
  }

  /** Upper-casing a character never turns it into whitespace or out of it. */
  lemma UpperCharKeepsSpace(d: Dialect, c: char)
    ensures IsSpace(d, UpperChar(c)) <==> IsSpace(d, c)
  {
  }

  predicate IsLower(c: char)
  {
    'a' <= c <= 'z'
  }

  /** `s.toUpperCase()`: no lower-case ASCII letter is left, and nothing but lower-case
      letters is changed. */
  function Upper(s: string): (r: string)
    ensures |r| == |s|
    ensures forall i :: 0 <= i < |r| ==> !IsLower(r[i])
    ensures forall i :: 0 <= i < |s| && !IsLower(s[i]) ==> r[i] == s[i]
    ensures forall i :: 0 <= i < |s| && IsLower(s[i]) ==> r[i] as int == s[i] as int - 32
  {
    seq(|s|, i requires 0 <= i < |s| => UpperChar(s[i]))
  }

  lemma UpperIdempotent(s: string)
    ensures Upper(Upper(s)) == Upper(s)
  {
  }

  /** The room-code normalisation `code.trim().toUpperCase()`. */
  function Normalize(d: Dialect, s: string): (r: string)
    ensures |r| <= |s|
    ensures r == [] <==> IsBlank(d, s)
  {
    Upper(Trim(d, s))
  }

  /** Upper-casing neither creates nor removes whitespace at either end. */
  lemma UpperKeepsEnds(d: Dialect, t: string)
    requires t != [] ==> !IsSpace(d, t[0]) && !IsSpace(d, t[|t| - 1])
    ensures Trim(d, Upper(t)) == Upper(t)
  {
    var u := Upper(t);
    if t != [] {
      UpperCharKeepsSpace(d, t[0]);
      UpperCharKeepsSpace(d, t[|t| - 1]);
      assert u[0] == UpperChar(t[0]);
      assert u[|u| - 1] == UpperChar(t[|t| - 1]);
    }
    assert u == [] + u + [];
    TrimPadded(d, [], u, []);
  }

  /** The client normalises a code and the server normalises it again: the second pass
      changes nothing. */
  lemma NormalizeIdempotent(d: Dialect, s: string)
    ensures Normalize(d, Normalize(d, s)) == Normalize(d, s)
  {
    var t := Trim(d, s);
    UpperKeepsEnds(d, t);
    UpperIdempotent(t);
  }
}
