/**
 * The few string operations of Python that the application relies on:
 * `str.upper`, `str.lower`, `str.startswith`, `str.rsplit(sep, 1)` and the
 * shape of a `hexdigest()`. Only the ASCII letters are cased here.
 */
module Text {

  /** The output of `hashlib.<algorithm>(...).hexdigest()`: lower-case hexadecimal text. */
  type HexDigest = s: string | forall i :: 0 <= i < |s| ==> s[i] in "0123456789abcdef"
    witness ""

  function UpperChar(c: char): char
  {
    if 'a' <= c <= 'z' then (c as int - 32) as char else c
  }

  function LowerChar(c: char): char
  {
    if 'A' <= c <= 'Z' then (c as int + 32) as char else c
  }

  /** `s.upper()` */
  function Upper(s: string): string
  {
    if s == [] then [] else [UpperChar(s[0])] + Upper(s[1..])
  }

  /** `s.lower()` */
  function Lower(s: string): string
  {
    if s == [] then [] else [LowerChar(s[0])] + Lower(s[1..])
  }

  /** `s.startswith(prefix)` */
  predicate StartsWith(s: string, prefix: string)
  {
    |prefix| <= |s| && s[..|prefix|] == prefix
  }

  /** `s.rsplit(sep, 1)[1]`: the text after the last occurrence of `sep`. */
  function AfterLast(s: string, sep: char): (r: string)
    requires sep in s
    ensures exists k :: 0 <= k < |s| && s[k] == sep && r == s[k + 1..]
    ensures sep !in r
  {
    if s[|s| - 1] == sep then
      []
    else
      var init := s[..|s| - 1];
      assert sep in init by {
        var k :| 0 <= k < |s| && s[k] == sep;
        assert init[k] == sep;
      }
      var rest := AfterLast(init, sep);
      var k :| 0 <= k < |init| && init[k] == sep && rest == init[k + 1..];
      assert rest + [s[|s| - 1]] == s[k + 1..];
      rest + [s[|s| - 1]]
  }

  /** Upper-casing keeps the length and works character by character. */
  lemma {:induction false} UpperAt(s: string, i: nat)
    requires i < |s|
    ensures |Upper(s)| == |s| && Upper(s)[i] == UpperChar(s[i])
  {
    if i > 0 {
      UpperAt(s[1..], i - 1);
    } else {
      UpperLength(s);
    }
  }

  lemma {:induction false} UpperLength(s: string)
    ensures |Upper(s)| == |s|
  {
    if s != [] {
      UpperLength(s[1..]);
    }
  }

  /** Upper-casing an upper-cased id changes nothing, so ids stored upper-case stay as they are. */
  lemma {:induction false} UpperIdempotent(s: string)
    ensures Upper(Upper(s)) == Upper(s)
  {
    if s != [] {
      UpperIdempotent(s[1..]);
      assert Upper(s)[1..] == Upper(s[1..]);
    }
  }

  /** A character that is not a letter occurs in `Upper(s)` exactly when it occurs in `s`. */
  lemma UpperKeepsNonLetters(s: string, c: char)
    requires !('a' <= c <= 'z') && !('A' <= c <= 'Z')
    ensures c in Upper(s) <==> c in s
  {
    UpperLength(s);
    if c in s {
      var i :| 0 <= i < |s| && s[i] == c;
      UpperAt(s, i);
    }
    if c in Upper(s) {
      var i :| 0 <= i < |Upper(s)| && Upper(s)[i] == c;
      UpperAt(s, i);
    }
  }
}
