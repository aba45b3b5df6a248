/** The string operations of the source that several components share. */
module Text {
  /** unicode.IsSpace. */
  predicate Space(c: char) {
    || '\t' <= c <= '\r' || c == ' ' || c == '\U{85}' || c == '\U{A0}' || c == '\U{1680}'
    || '\U{2000}' <= c <= '\U{200A}' || c == '\U{2028}' || c == '\U{2029}'
    || c == '\U{202F}' || c == '\U{205F}' || c == '\U{3000}'
  }

  /** The 25 characters with the property White_Space. */
  const WHITE_SPACE := [
    '\t', '\n', '\U{B}', '\U{C}', '\r', ' ', '\U{85}', '\U{A0}', '\U{1680}', '\U{2000}', '\U{2001}', '\U{2002}', '\U{2003}',
    '\U{2004}', '\U{2005}', '\U{2006}', '\U{2007}', '\U{2008}', '\U{2009}', '\U{200A}', '\U{2028}', '\U{2029}', '\U{202F}',
    '\U{205F}', '\U{3000}']

  lemma SpaceExactly(c: char)
    ensures Space(c) <==> c in WHITE_SPACE
  {
    if '\t' <= c <= '\r' {
      assert c == '\t' || c == '\n' || c == '\U{B}' || c == '\U{C}' || c == '\r';
    }
  }

  function TrimLeft(s: string): string {
    if s != "" && Space(s[0]) then TrimLeft(s[1..]) else s
  }

  function TrimRight(s: string): string {
    if s != "" && Space(s[|s| - 1]) then TrimRight(s[..|s| - 1]) else s
  }

  function Trim(s: string): string {
    TrimRight(TrimLeft(s))
  }

  predicate Trimmed(s: string) {
    s != "" ==> !Space(s[0]) && !Space(s[|s| - 1])
  }

  predicate AllSpace(s: string) {
    forall i :: 0 <= i < |s| ==> Space(s[i])
  }

  lemma {:induction false} TrimLeftSplits(s: string) returns (k: nat)
    ensures k <= |s| && TrimLeft(s) == s[k..] && AllSpace(s[..k])
    ensures TrimLeft(s) != "" ==> !Space(TrimLeft(s)[0])
  {
    if s != "" && Space(s[0]) {
      k := TrimLeftSplits(s[1..]);
      assert s[1..][k..] == s[k + 1..];
      assert s[..k + 1] == [s[0]] + s[1..][..k];
      k := k + 1;
    } else {
      k := 0;
    }
  }

  lemma {:induction false} TrimRightSplits(s: string) returns (k: nat)
    ensures k <= |s| && TrimRight(s) == s[..k] && AllSpace(s[k..])
    ensures TrimRight(s) != "" ==> !Space(TrimRight(s)[|TrimRight(s)| - 1])
  {
    k := |s|;
    if s != "" && Space(s[|s| - 1]) {
      k := TrimRightSplits(s[..|s| - 1]);
      assert s[..|s| - 1][..k] == s[..k];
      assert s[k..] == s[..|s| - 1][k..] + [s[|s| - 1]];
    }
  }

  /** Trimming takes white space off both ends, all of it, and nothing else. */
  lemma TrimExact(s: string) returns (a: string, b: string)
    ensures s == a + Trim(s) + b && AllSpace(a) && AllSpace(b) && Trimmed(Trim(s))
  {
    var i := TrimLeftSplits(s);
    var j := TrimRightSplits(s[i..]);
    a, b := s[..i], s[i..][j..];
    assert s == s[..i] + s[i..] && s[i..] == s[i..][..j] + s[i..][j..];
  }

  /** A string without white space at its ends is its own trim. */
  lemma TrimFixes(s: string)
    requires Trimmed(s)
    ensures Trim(s) == s
  {
  }

  /** strings.Split with a separator of one character. */
  function Split(s: string, separator: char): (parts: seq<string>)
    ensures |parts| >= 1
  {
    if s == "" then [""]
    else
      var rest := Split(s[1..], separator);
      if s[0] == separator then [""] + rest else [[s[0]] + rest[0]] + rest[1..]
  }

  lemma {:induction false} SplitWhole(s: string, separator: char)
    requires separator !in s
    ensures Split(s, separator) == [s]
  {
    if s != "" {
      SplitWhole(s[1..], separator);
      assert [s[0]] + s[1..] == s;
    }
  }

  lemma {:induction false} SplitTwo(a: string, b: string, separator: char)
    requires separator !in a && separator !in b
    ensures Split(a + [separator] + b, separator) == [a, b]
  {
    if a == "" {
      assert (a + [separator] + b)[1..] == b;
      SplitWhole(b, separator);
    } else {
      assert (a + [separator] + b)[1..] == a[1..] + [separator] + b;
      SplitTwo(a[1..], b, separator);
      assert [a[0]] + a[1..] == a;
    }
  }

  function Join(parts: seq<string>, separator: char): string
    requires parts != []
  {
    if |parts| == 1 then parts[0] else parts[0] + [separator] + Join(parts[1..], separator)
  }

  /** Splitting loses nothing and splits at every separator. */
  lemma {:induction false} SplitJoins(s: string, separator: char)
    ensures Join(Split(s, separator), separator) == s
    ensures forall i :: 0 <= i < |Split(s, separator)| ==> separator !in Split(s, separator)[i]
  {
    if s != "" {
      var parts, rest := Split(s, separator), Split(s[1..], separator);
      SplitJoins(s[1..], separator);
      assert s == [s[0]] + s[1..];
      if s[0] == separator {
        assert parts[1..] == rest;
      } else {
        assert parts[1..] == rest[1..];
      }
    }
  }

  /** Two parts are those around the one separator. */
  lemma SplitTwoExactly(s: string, separator: char, a: string, b: string)
    ensures Split(s, separator) == [a, b] <==> s == a + [separator] + b && separator !in a && separator !in b
  {
    if Split(s, separator) == [a, b] {
      SplitJoins(s, separator);
      assert [a, b][1..] == [b];
    } else if s == a + [separator] + b && separator !in a && separator !in b {
      SplitTwo(a, b, separator);
    }
  }

  /** What comes before the first separator is one string only. */
  lemma {:induction false} FirstSeparator(a: string, b: string, c: string, d: string, separator: char)
    requires a + [separator] + b == c + [separator] + d && separator !in a && separator !in c
    ensures a == c && b == d
  {
    assert (a + [separator] + b)[0] == (c + [separator] + d)[0];
    if a != "" && c != "" {
      assert (a + [separator] + b)[1..] == a[1..] + [separator] + b;
      assert (c + [separator] + d)[1..] == c[1..] + [separator] + d;
      FirstSeparator(a[1..], b, c[1..], d, separator);
      assert a == [a[0]] + a[1..] && c == [c[0]] + c[1..];
    } else if a == c {
      assert (a + [separator] + b)[1..] == b && (c + [separator] + d)[1..] == d;
    }
  }
}
