/** The string operations of the Rust standard library that the parsers use. A string is its sequence
    of Unicode scalar values. */
module Text {

  function Utf8Size(c: char): nat {
    if c as int < 0x80 then 1 else if c as int < 0x800 then 2 else if c as int < 0x10000 then 3 else 4
  }

  /** The length of a string in UTF-8 bytes. */
  function Utf8Len(s: string): nat {
    if s == [] then 0 else Utf8Size(s[0]) + Utf8Len(s[1..])
  }

  lemma {:induction false} SizeConcat(a: string, b: string)
    ensures Utf8Len(a + b) == Utf8Len(a) + Utf8Len(b)
  {
    if a == [] {
      assert a + b == b;
    } else {
      assert (a + b)[1..] == a[1..] + b;
      SizeConcat(a[1..], b);
    }
  }

  /** The Unicode White_Space property. */
  predicate IsSpace(c: char) {
    var n := c as int;
    || 0x09 <= n <= 0x0d || n == 0x20 || n == 0x85 || n == 0xa0 || n == 0x1680 || 0x2000 <= n <= 0x200a
    || n == 0x2028 || n == 0x2029 || n == 0x202f || n == 0x205f || n == 0x3000
  }

  function TrimStart(s: string): string {
    if s != [] && IsSpace(s[0]) then TrimStart(s[1..]) else s
  }

  function TrimEnd(s: string): string {
    if s != [] && IsSpace(s[|s| - 1]) then TrimEnd(s[..|s| - 1]) else s
  }

  function Trim(s: string): string { TrimEnd(TrimStart(s)) }

  predicate AllSpaces(s: string) { forall i :: 0 <= i < |s| ==> IsSpace(s[i]) }

  predicate IsBare(s: string) { s != [] ==> !IsSpace(s[0]) && !IsSpace(s[|s| - 1]) }

  lemma {:induction false} TrimEndTakes(s: string) returns (after: string)
    ensures s == TrimEnd(s) + after && AllSpaces(after)
    ensures TrimEnd(s) != [] ==> !IsSpace(TrimEnd(s)[|TrimEnd(s)| - 1])
  {
    after := [];
    if s != [] && IsSpace(s[|s| - 1]) {
      after := TrimEndTakes(s[..|s| - 1]);
      after := after + [s[|s| - 1]];
    }
  }

  lemma {:induction false} TrimStartTakes(s: string) returns (before: string)
    ensures s == before + TrimStart(s) && AllSpaces(before)
    ensures TrimStart(s) != [] ==> !IsSpace(TrimStart(s)[0])
  {
    before := [];
    if s != [] && IsSpace(s[0]) {
      before := TrimStartTakes(s[1..]);
      before := [s[0]] + before;
    }
  }

  /** Trimming takes off white space at both ends and nothing else, until other characters stand there. */
  lemma TrimTakesSpaces(s: string) returns (before: string, after: string)
    ensures s == before + Trim(s) + after && AllSpaces(before) && AllSpaces(after) && IsBare(Trim(s))
  {
    before := TrimStartTakes(s);
    after := TrimEndTakes(TrimStart(s));
    if Trim(s) != [] { assert TrimStart(s)[0] == Trim(s)[0]; }
  }

  function UpperChar(c: char): char {
    if 'a' <= c <= 'z' then (c as int - 32) as char else c
  }

  function LowerChar(c: char): char {
    if 'A' <= c <= 'Z' then (c as int + 32) as char else c
  }

  function Upper(s: string): string { seq(|s|, i requires 0 <= i < |s| => UpperChar(s[i])) }

  function Lower(s: string): string { seq(|s|, i requires 0 <= i < |s| => LowerChar(s[i])) }

  predicate StartsWith(s: string, prefix: string) { prefix <= s }

  /** The pieces between the occurrences of a separator; there is always at least one. */
  function Split(s: string, sep: char): (parts: seq<string>)
    ensures |parts| >= 1
  {
    if s == [] then [[]]
    else
      var rest := Split(s[1..], sep);
      if s[0] == sep then [[]] + rest else [[s[0]] + rest[0]] + rest[1..]
  }

  function Join(parts: seq<string>, sep: char): string
    requires |parts| >= 1
  {
    if |parts| == 1 then parts[0] else parts[0] + [sep] + Join(parts[1..], sep)
  }

  lemma {:induction false} SplitJoins(s: string, sep: char)
    ensures Join(Split(s, sep), sep) == s
    ensures forall p :: p in Split(s, sep) ==> sep !in p
  {
    if s != [] {
      SplitJoins(s[1..], sep);
      var rest := Split(s[1..], sep);
      if s[0] == sep {
        assert ([[]] + rest)[1..] == rest;
        assert [] + [sep] + Join(rest, sep) == s;
      } else {
        var parts := [[s[0]] + rest[0]] + rest[1..];
        assert parts[1..] == rest[1..];
        assert Join(parts, sep) == [s[0]] + Join(rest, sep);
      }
    }
  }

  lemma {:induction false} SplitAtFirst(p: string, sep: char, r: string)
    requires sep !in p
    ensures Split(p, sep) == [p]
    ensures Split(p + [sep] + r, sep) == [p] + Split(r, sep)
  {
    var s := p + [sep] + r;
    if p == [] {
      assert s[0] == sep && s[1..] == r;
    } else {
      assert forall c :: c in p[1..] ==> c in p;
      SplitAtFirst(p[1..], sep, r);
      assert s[0] == p[0] && s[1..] == p[1..] + [sep] + r;
      assert [p[0]] + p[1..] == p;
    }
  }

  lemma UpperOfLower(s: string)
    ensures Upper(Lower(s)) == Upper(s) && Lower(Upper(s)) == Lower(s)
  {}

  /** The same letter, or a letter from A to Z and its lower-case form, which stands 32 places behind it. */
  predicate SameLetter(a: char, b: char) {
    || a == b
    || ('A' <= a <= 'Z' && b as int == a as int + 32)
    || ('A' <= b <= 'Z' && a as int == b as int + 32)
  }

  /** Two texts have the same upper-case form exactly when they differ in the case of ASCII letters only; and the
      same for the lower-case form. */
  lemma SameUpToCase(s: string, t: string)
    ensures Upper(s) == Upper(t) <==> |s| == |t| && forall i :: 0 <= i < |s| ==> SameLetter(s[i], t[i])
    ensures Lower(s) == Lower(t) <==> Upper(s) == Upper(t)
  {
    if Upper(s) == Upper(t) {
      forall i | 0 <= i < |s| ensures SameLetter(s[i], t[i]) && LowerChar(s[i]) == LowerChar(t[i]) {
        assert Upper(s)[i] == Upper(t)[i];
      }
    }
    if Lower(s) == Lower(t) {
      forall i | 0 <= i < |s| ensures UpperChar(s[i]) == UpperChar(t[i]) { assert Lower(s)[i] == Lower(t)[i]; }
    }
  }

  /** An upper-case form has no lower-case letter, and a lower-case form no upper-case one. */
  lemma CaseIsChanged(s: string, i: nat)
    requires i < |s|
    ensures !('a' <= Upper(s)[i] <= 'z') && !('A' <= Lower(s)[i] <= 'Z')
  {}

  lemma UpperConcat(s: string, t: string)
    ensures Upper(s + t) == Upper(s) + Upper(t)
  {}

  /** Only a string that starts and ends with other characters is its own trimming. */
  lemma TrimKeeps(s: string)
    requires s != [] && !IsSpace(s[0]) && !IsSpace(s[|s| - 1])
    ensures Trim(s) == s
  {}

  lemma {:induction false} AsciiSize(s: string)
    requires forall c :: c in s ==> c as int < 0x80
    ensures Utf8Len(s) == |s|
  {
    if s != [] {
      assert s[0] in s && forall c :: c in s[1..] ==> c in s;
      AsciiSize(s[1..]);
    }
  }

  lemma UpperKeepsHyphen(s: string)
    ensures '-' in Upper(s) <==> '-' in s
  {
    forall i | 0 <= i < |s| ensures Upper(s)[i] == '-' <==> s[i] == '-' {}
    if '-' in Upper(s) { var i :| 0 <= i < |s| && Upper(s)[i] == '-'; assert s[i] == '-'; }
    if '-' in s { var i :| 0 <= i < |s| && s[i] == '-'; assert Upper(s)[i] == '-'; }
  }

  /** A text in three pieces around two separators splits into them. */
  lemma SplitThree(p: string, q: string, r: string, sep: char)
    requires sep !in p && sep !in q && sep !in r
    ensures Split(p + [sep] + (q + [sep] + r), sep) == [p, q, r]
  {
    SplitAtFirst(p, sep, q + [sep] + r);
    SplitAtFirst(q, sep, r);
    SplitAtFirst(r, sep, []);
  }

  lemma JoinThree(p: string, q: string, r: string, sep: char)
    ensures Join([p, q, r], sep) == p + [sep] + (q + [sep] + r)
  {
    assert [p, q, r][1..] == [q, r] && [q, r][1..] == [r];
    assert Join([q, r], sep) == q + [sep] + r;
  }
}
