/** Go identifiers to wire field names (domain/wire_names.go). */
module WireNames {
  import opened Strings

  predicate IsUpperRune(r: char) {
    'A' <= r <= 'Z'
  }

  function ToLowerRune(r: char): char {
    if IsUpperRune(r) then ((r as int) + 32) as char else r
  }

  /** Length of the leading run of uppercase letters. */
  function UpperRun(s: string): (n: nat)
    ensures n <= |s|
    ensures forall i :: 0 <= i < n ==> IsUpperRune(s[i])
    ensures n < |s| ==> !IsUpperRune(s[n])
  {
    if s == [] || !IsUpperRune(s[0]) then 0 else 1 + UpperRun(s[1..])
  }

  /** How many leading letters are lowered: one capital, a whole acronym, or an
      acronym without the letter that opens the next word. */
  function LoweredLength(s: string): (n: nat)
    ensures n <= |s|
  {
    var u := UpperRun(s);
    if u <= 1 || u == |s| then u else u - 1
  }

  function LowerFirst(s: string, n: nat): (r: string)
    requires n <= |s|
    ensures |r| == |s|
  {
    seq(|s|, i requires 0 <= i < |s| => if i < n then ToLowerRune(s[i]) else s[i])
  }

  function LowerCamel(s: string): string {
    LowerFirst(s, LoweredLength(s))
  }

  method ToLowerCamel(s: string) returns (r: string)
    ensures r == LowerCamel(s)
  {
    if s == "" { return s; }
    var runes := new char[|s|](i requires 0 <= i < |s| => s[i]);
    if !IsUpperRune(runes[0]) {
      assert LowerCamel(s) == s;
      return s;
    }
    var upperRun := 1;
    while upperRun < runes.Length && IsUpperRune(runes[upperRun])
      invariant 1 <= upperRun <= runes.Length
      invariant forall i :: 0 <= i < upperRun ==> IsUpperRune(s[i])
    {
      upperRun := upperRun + 1;
    }
    assert upperRun == UpperRun(s);
    if upperRun == 1 {
      runes[0] := ToLowerRune(runes[0]);
    } else {
      var n := if upperRun == runes.Length then runes.Length else upperRun - 1;
      for i := 0 to n
        invariant forall j :: 0 <= j < runes.Length ==> runes[j] == if j < i then ToLowerRune(s[j]) else s[j]
      {
        runes[i] := ToLowerRune(runes[i]);
      }
    }
    r := runes[..];
    assert r == LowerCamel(s);
  }

  /** Length-preserving; never touches a separator; nothing but the case of leading
      letters changes; and a rendered name renders to itself. */
  lemma LowerCamelLaws(s: string)
    ensures |LowerCamel(s)| == |s|
    ensures forall i :: 0 <= i < |s| ==> ToLowerRune(LowerCamel(s)[i]) == ToLowerRune(s[i])
    ensures '.' !in s ==> '.' !in LowerCamel(s)
    ensures LowerCamel(LowerCamel(s)) == LowerCamel(s)
  {
  }

  const UPPER: string := "ABCDEFGHIJKLMNOPQRSTUVWXYZ"
  const LOWER: string := "abcdefghijklmnopqrstuvwxyz"

  /** A capital becomes the small letter of the same place in the alphabet. */
  lemma LowersAlphabet(i: nat)
    requires i < 26
    ensures IsUpperRune(UPPER[i]) && !IsUpperRune(LOWER[i])
    ensures ToLowerRune(UPPER[i]) == ToLowerRune(LOWER[i]) == LOWER[i]
  {
  }

  /** Letter by letter: a capital is lowered when only capitals lead up to it and it does
      not open a word of its own, that is, it is the first letter, the last, or another
      capital follows. Everything else stays. */
  lemma LowerCamelPointwise(s: string, i: nat)
    requires i < |s|
    ensures var leading := forall j :: 0 <= j <= i ==> IsUpperRune(s[j]);
            var lowered := leading && (i == 0 || i + 1 == |s| || IsUpperRune(s[i + 1]));
            LowerCamel(s)[i] == if lowered then ToLowerRune(s[i]) else s[i]
  {
  }

  function LowerAll(parts: seq<string>): (r: seq<string>)
    ensures |r| == |parts|
  {
    seq(|parts|, i requires 0 <= i < |parts| => LowerCamel(parts[i]))
  }

  function WirePath(goPath: string): string {
    Join(LowerAll(Split(goPath, '.')), '.')
  }

  method WireFieldPath(goPath: string) returns (r: string)
    ensures r == WirePath(goPath)
  {
    if '.' !in goPath {
      SplitFree(goPath, '.');
      r := ToLowerCamel(goPath);
      return;
    }
    var segs := Split(goPath, '.');
    ghost var parts := segs;
    for i := 0 to |segs|
      invariant |segs| == |parts|
      invariant forall j :: 0 <= j < |segs| ==> segs[j] == if j < i then LowerCamel(parts[j]) else parts[j]
    {
      var t := ToLowerCamel(segs[i]);
      segs := segs[i := t];
    }
    assert segs == LowerAll(parts);
    r := Join(segs, '.');
  }

  lemma {:induction false} JoinLowerLength(parts: seq<string>)
    ensures |Join(LowerAll(parts), '.')| == |Join(parts, '.')|
  {
    if |parts| > 1 {
      assert LowerAll(parts)[1..] == LowerAll(parts[1..]);
      JoinLowerLength(parts[1..]);
    }
  }

  lemma WirePathLength(goPath: string)
    ensures |WirePath(goPath)| == |goPath|
  {
    JoinLowerLength(Split(goPath, '.'));
    JoinSplit(goPath, '.');
  }

  lemma LowerAllFree(parts: seq<string>)
    requires AllFree(parts, '.')
    ensures AllFree(LowerAll(parts), '.')
    ensures LowerAll(LowerAll(parts)) == LowerAll(parts)
  {
    forall i | 0 <= i < |parts|
      ensures '.' !in LowerAll(parts)[i] && LowerCamel(LowerCamel(parts[i])) == LowerCamel(parts[i])
    {
      LowerCamelLaws(parts[i]);
    }
  }

  lemma WirePathIdempotent(goPath: string)
    ensures WirePath(WirePath(goPath)) == WirePath(goPath)
  {
    var parts := Split(goPath, '.');
    SplitPartsFree(goPath, '.');
    LowerAllFree(parts);
    SplitJoin(LowerAll(parts), '.');
  }

  /** Joining dot-free names and rendering the path is rendering each name. */
  lemma WirePathOfJoin(names: seq<string>)
    requires names != [] && AllFree(names, '.')
    ensures WirePath(Join(names, '.')) == Join(LowerAll(names), '.')
  {
    SplitJoin(names, '.');
  }
}
