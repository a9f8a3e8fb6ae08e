/** String helpers used by credential issuance (`name.replace(/\s+/g, '')`) and by the local
    backend's case-insensitive e-mail comparison (`toLowerCase`). */
module Text {

  /** The ECMAScript `\s` class: WhiteSpace and LineTerminator code points. Space, tab and the
      line breaks belong to it; no ASCII letter or digit does. */
  predicate IsJsWhitespace(c: char)
    ensures c == ' ' || c == '\t' || c == '\n' || c == '\r' ==> IsJsWhitespace(c)
    ensures IsAsciiLetter(c) || '0' <= c <= '9' ==> !IsJsWhitespace(c)
  {
    var n := c as int;
    n == 0x09 || n == 0x0A || n == 0x0B || n == 0x0C || n == 0x0D || n == 0x20 ||
    n == 0xA0 || n == 0x1680 || (0x2000 <= n <= 0x200A) || n == 0x2028 || n == 0x2029 ||
    n == 0x202F || n == 0x205F || n == 0x3000 || n == 0xFEFF
  }

  predicate NoWhitespace(s: string)
  {
    forall i :: 0 <= i < |s| ==> !IsJsWhitespace(s[i])
  }

  /** `s.replace(/\s+/g, '')`: removing every run of whitespace removes every whitespace character. */
  function RemoveWhitespace(s: string): (r: string)
    ensures NoWhitespace(r)
    ensures |r| <= |s|
    ensures |r| == |s| <==> NoWhitespace(s)
  {
    if s == [] then []
    else if IsJsWhitespace(s[0]) then RemoveWhitespace(s[1..])
    else [s[0]] + RemoveWhitespace(s[1..])
  }

  /** Stripping keeps the non-whitespace characters in order: it distributes over concatenation. */
  lemma {:induction false} RemoveWhitespaceConcat(a: string, b: string)
    ensures RemoveWhitespace(a + b) == RemoveWhitespace(a) + RemoveWhitespace(b)
  {
    if a == [] {
      assert a + b == b;
    } else {
      assert (a + b)[0] == a[0];
      assert (a + b)[1..] == a[1..] + b;
      RemoveWhitespaceConcat(a[1..], b);
    }
  }

  /** A name without whitespace is left as it is, so stripping is idempotent. */
  lemma {:induction false} RemoveWhitespaceIdentity(s: string)
    requires NoWhitespace(s)
    ensures RemoveWhitespace(s) == s
  {
    if s != [] {
      assert NoWhitespace(s[1..]) by {
        forall i | 0 <= i < |s[1..]| ensures !IsJsWhitespace(s[1..][i]) {
          assert s[1..][i] == s[i + 1];
        }
      }
      RemoveWhitespaceIdentity(s[1..]);
    }
  }

  lemma RemoveWhitespaceIdempotent(s: string)
    ensures RemoveWhitespace(RemoveWhitespace(s)) == RemoveWhitespace(s)
  {
    RemoveWhitespaceIdentity(RemoveWhitespace(s));
  }

  predicate IsAsciiLetter(c: char)
  {
    'A' <= c <= 'Z' || 'a' <= c <= 'z'
  }

  /** Lower-casing of one character; only the ASCII letters A-Z are mapped. */
  function LowerChar(c: char): (r: char)
    ensures 'A' <= c <= 'Z' ==> r as int == c as int + 32
    ensures !('A' <= c <= 'Z') ==> r == c
  {
    if 'A' <= c <= 'Z' then (c as int + 32) as char else c
  }

  /** `s.toLowerCase()` restricted to ASCII case mapping. */
  function LowerCase(s: string): (r: string)
    ensures |r| == |s|
    ensures forall i :: 0 <= i < |s| ==> r[i] == LowerChar(s[i])
  {
    seq(|s|, i requires 0 <= i < |s| => LowerChar(s[i]))
  }

  /** `a.toLowerCase() === b.toLowerCase()`: the comparison the local backend uses for e-mails.
      Addresses match exactly when they agree position by position up to the case of ASCII
      letters; every other character is the same at the same position. */
  predicate SameEmail(a: string, b: string)
    ensures a == b ==> SameEmail(a, b)
    ensures SameEmail(a, b) ==>
              |a| == |b| && forall i :: 0 <= i < |a| && !IsAsciiLetter(a[i]) ==> a[i] == b[i]
    ensures SameEmail(a, b) <==>
              |a| == |b| && forall i :: 0 <= i < |a| ==> LowerChar(a[i]) == LowerChar(b[i])
  {
    LowerCase(a) == LowerCase(b)
  }

  /** The e-mail comparison is an equivalence, and an address matches its lower-cased form. */
  lemma SameEmailProperties(a: string, b: string, c: string)
    ensures SameEmail(a, a)
    ensures SameEmail(a, LowerCase(a))
    ensures SameEmail(a, b) <==> SameEmail(b, a)
    ensures SameEmail(a, b) && SameEmail(b, c) ==> SameEmail(a, c)
  {
    var la := LowerCase(a);
    assert LowerCase(la) == la by {
      forall i | 0 <= i < |la| ensures LowerCase(la)[i] == la[i] {
      }
    }
  }
}
