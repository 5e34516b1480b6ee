/** Splitting and joining on one separator character, as strings.Split and strings.Join
    of the Go library do. */
module Strings {

  /** Split after putting one more character in front. */
  function Cons(c: char, parts: seq<string>, sep: char): seq<string>
    requires |parts| > 0
  {
    if c == sep then [[]] + parts else [[c] + parts[0]] + parts[1..]
  }

  function Split(s: string, sep: char): (parts: seq<string>)
    ensures |parts| > 0
  {
    if s == [] then [[]] else Cons(s[0], Split(s[1..], sep), sep)
  }

  function Join(parts: seq<string>, sep: char): string {
    if parts == [] then []
    else if |parts| == 1 then parts[0]
    else parts[0] + [sep] + Join(parts[1..], sep)
  }

  ghost predicate AllFree(parts: seq<string>, sep: char) {
    forall i :: 0 <= i < |parts| ==> sep !in parts[i]
  }

  lemma {:induction false} SplitPartsFree(s: string, sep: char)
    ensures AllFree(Split(s, sep), sep)
  {
    if s != [] { SplitPartsFree(s[1..], sep); }
  }

  lemma ConsConcat(c: char, a: seq<string>, b: seq<string>, sep: char)
    requires |a| > 0
    ensures Cons(c, a + b, sep) == Cons(c, a, sep) + b
  {
  }

  lemma SplitCons(c: char, s: string, sep: char)
    ensures Split([c] + s, sep) == Cons(c, Split(s, sep), sep)
  {
  }

  lemma {:induction false} SplitConcat(p: string, s: string, sep: char)
    ensures Split(p + [sep] + s, sep) == Split(p, sep) + Split(s, sep)
  {
    if p == [] {
      SplitCons(sep, s, sep);
      assert p + [sep] + s == [sep] + s;
    } else {
      var q := p[1..] + [sep] + s;
      assert p + [sep] + s == [p[0]] + q && p == [p[0]] + p[1..];
      SplitConcat(p[1..], s, sep);
      SplitCons(p[0], q, sep);
      SplitCons(p[0], p[1..], sep);
      ConsConcat(p[0], Split(p[1..], sep), Split(s, sep), sep);
    }
  }

  lemma {:induction false} SplitFree(s: string, sep: char)
    requires sep !in s
    ensures Split(s, sep) == [s]
  {
    if s != [] {
      assert s == [s[0]] + s[1..];
      SplitFree(s[1..], sep);
    }
  }

  lemma {:induction false} SplitJoin(parts: seq<string>, sep: char)
    requires parts != [] && AllFree(parts, sep)
    ensures Split(Join(parts, sep), sep) == parts
  {
    SplitFree(parts[0], sep);
    if |parts| == 1 {
      assert parts == [parts[0]];
    } else {
      SplitJoin(parts[1..], sep);
      SplitConcat(parts[0], Join(parts[1..], sep), sep);
      assert parts == [parts[0]] + parts[1..];
    }
  }

  lemma {:induction false} JoinSplit(s: string, sep: char)
    ensures Join(Split(s, sep), sep) == s
  {
    if s != [] {
      JoinSplit(s[1..], sep);
      var rest := Split(s[1..], sep);
      var parts := Split(s, sep);
      if s[0] == sep {
        assert parts[1..] == rest;
      } else {
        assert parts[1..] == rest[1..];
        assert s == [s[0]] + s[1..];
      }
    }
  }
}
