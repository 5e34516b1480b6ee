/** Masking the password of a connection string before it is logged
    (bootstrap/redact.go). The keyword pass that follows is a parameter: it is a function
    of the already masked string. */
module Redact {

  /** First index of a character satisfying `p`, or the length. */
  function FirstWhere(s: string, p: char -> bool): (i: nat)
    ensures i <= |s| && (i < |s| ==> p(s[i]))
    ensures forall j :: 0 <= j < i ==> !p(s[j])
  {
    FirstWhereFrom(s, p, 0)
  }

  function FirstWhereFrom(s: string, p: char -> bool, k: nat): (i: nat)
    requires k <= |s|
    ensures k <= i <= |s| && (i < |s| ==> p(s[i]))
    ensures forall j :: k <= j < i ==> !p(s[j])
    decreases |s| - k
  {
    if k == |s| || p(s[k]) then k else FirstWhereFrom(s, p, k + 1)
  }

  /** Last index of `c`, or -1. */
  function LastIndex(s: string, c: char): (i: int)
    ensures -1 <= i < |s| && (i >= 0 ==> s[i] == c)
    ensures forall j :: i < j < |s| ==> s[j] != c
  {
    LastIndexBelow(s, c, |s|)
  }

  function LastIndexBelow(s: string, c: char, n: nat): (i: int)
    requires n <= |s|
    ensures -1 <= i < n && (i >= 0 ==> s[i] == c)
    ensures forall j :: i < j < n ==> s[j] != c
  {
    if n == 0 then -1 else if s[n - 1] == c then n - 1 else LastIndexBelow(s, c, n - 1)
  }

  predicate SepAt(s: string, i: nat) {
    i + 3 <= |s| && s[i] == ':' && s[i + 1] == '/' && s[i + 2] == '/'
  }

  /** First index of "://", or -1. */
  function SchemeSep(s: string): (i: int)
    ensures -1 <= i && (i >= 0 ==> SepAt(s, i))
    ensures forall j: nat :: (i < 0 || j < i) ==> !SepAt(s, j)
  {
    SchemeSepFrom(s, 0)
  }

  function SchemeSepFrom(s: string, k: nat): (i: int)
    requires k <= |s|
    ensures i == -1 || k <= i
    ensures i >= 0 ==> SepAt(s, i)
    ensures forall j: nat :: k <= j && (i < 0 || j < i) ==> !SepAt(s, j)
    decreases |s| - k
  {
    if k == |s| then -1 else if SepAt(s, k) then k else SchemeSepFrom(s, k + 1)
  }

  predicate IsDelim(c: char) {
    c == '/' || c == '?' || c == '#'
  }

  function UriAuthorityEnd(rest: string): (end: nat)
    ensures end <= |rest|
  {
    FirstWhere(rest, IsDelim)
  }

  function DriverAuthorityEnd(dsn: string): (end: nat)
    ensures end <= |dsn|
  {
    var i := LastIndex(dsn, '/');
    if i >= 0 then i else |dsn|
  }

  predicate IsColon(c: char) {
    c == ':'
  }

  /** What stands where a password stood. */
  function Hide(before: string, behind: string): string {
    before + "***" + behind
  }

  function MaskUserInfo(s: string, end: nat): string
    requires end <= |s|
  {
    var at := LastIndex(s[..end], '@');
    if at < 0 then s
    else
      var colon := FirstWhere(s[..at], IsColon);
      if colon == at then s else Hide(s[..colon + 1], s[at..])
  }

  predicate IsBlank(c: char) { c in " \t\n\r" || c == 12 as char }

  predicate IsLetter(c: char) { 'a' <= c <= 'z' || 'A' <= c <= 'Z' }

  predicate IsKeyChar(c: char) { IsLetter(c) || '0' <= c <= '9' || c == ' ' || c == '_' }

  predicate NotBlank(c: char) { !IsBlank(c) }

  predicate NotKeyChar(c: char) { !IsKeyChar(c) }

  /** The string opens with a `key=` pair. */
  predicate KeyValueHead(s: string) {
    var i := FirstWhere(s, NotBlank);
    && i < |s| && IsLetter(s[i])
    && var j := i + 1 + FirstWhere(s[i + 1..], NotKeyChar);
    j < |s| && s[j] == '='
  }

  /** The credentials pass. */
  function Mask(dsn: string): string {
    var i := SchemeSep(dsn);
    if i >= 0 then dsn[..i + 3] + MaskUserInfo(dsn[i + 3..], UriAuthorityEnd(dsn[i + 3..]))
    else if !KeyValueHead(dsn) then MaskUserInfo(dsn, DriverAuthorityEnd(dsn))
    else dsn
  }

  function Redacted(dsn: string, maskKeys: string -> string): string {
    if dsn == "" then "" else maskKeys(Mask(dsn))
  }

  method RedactEach(endpoints: seq<string>, maskKeys: string -> string) returns (out: seq<string>)
    ensures |out| == |endpoints| && forall i :: 0 <= i < |out| ==> out[i] == Redacted(endpoints[i], maskKeys)
  {
    if |endpoints| == 0 { return endpoints; }
    out := [];
    for i := 0 to |endpoints|
      invariant |out| == i && forall j :: 0 <= j < i ==> out[j] == Redacted(endpoints[j], maskKeys)
    {
      out := out + [Redacted(endpoints[i], maskKeys)];
    }
  }

  // ---- key=value strings ----

  /** A key as the keyword dialects write it, behind blanks, by code points: tab, line feed,
      form feed, carriage return and space; then a letter; then letters, digits, spaces and '_'. */
  ghost predicate IsKey(blanks: string, key: string) {
    && (forall i :: 0 <= i < |blanks| ==> blanks[i] as int in {9, 10, 12, 13, 32})
    && key != "" && InAlphabet(key[0] as int)
    && (forall i :: 0 <= i < |key| ==>
          InAlphabet(key[i] as int) || 48 <= key[i] as int <= 57 || key[i] as int == 32 || key[i] as int == 95)
  }

  predicate InAlphabet(code: int) {
    65 <= code <= 90 || 97 <= code <= 122
  }

  function KeyPair(blanks: string, key: string, rest: string): string {
    blanks + (key + ("=" + rest))
  }

  /** Blanks, a key and '=' stand in front. */
  ghost predicate OpensWithKey(s: string) {
    exists blanks, key, rest :: IsKey(blanks, key) && s == KeyPair(blanks, key, rest)
  }

  lemma PairIsHead(blanks: string, key: string, rest: string)
    requires IsKey(blanks, key)
    ensures KeyValueHead(KeyPair(blanks, key, rest))
  {
    var tail := key + ("=" + rest);
    var s, n := blanks + tail, |blanks|;
    assert s[n] == key[0];
    assert forall j :: 0 <= j < n ==> s[j] == blanks[j];
    FirstWhereAt(s, NotBlank, n);
    var behind := s[n + 1..];
    var m := |key| - 1;
    assert behind == key[1..] + ("=" + rest) by { assert tail[1..] == key[1..] + ("=" + rest); }
    assert behind[m] == '=' && forall j :: 0 <= j < m ==> behind[j] == key[1..][j];
    FirstWhereAt(behind, NotKeyChar, m);
    assert s[n + 1 + m] == behind[m];
  }

  lemma HeadShape(s: string) returns (i: nat, j: nat)
    requires KeyValueHead(s)
    ensures i < j < |s| && s[j] == '=' && IsLetter(s[i])
    ensures (forall k :: 0 <= k < i ==> IsBlank(s[k])) && (forall k :: i < k < j ==> IsKeyChar(s[k]))
  {
    i := FirstWhere(s, NotBlank);
    var behind := s[i + 1..];
    var m := FirstWhere(behind, NotKeyChar);
    j := i + 1 + m;
    forall k | i < k < j ensures IsKeyChar(s[k]) {
      var l := k - i - 1;
      assert s[k] == behind[l] && !NotKeyChar(behind[l]);
    }
    forall k | 0 <= k < i ensures IsBlank(s[k]) { assert !NotBlank(s[k]); }
  }

  lemma HeadIsPair(s: string)
    requires KeyValueHead(s)
    ensures OpensWithKey(s)
  {
    var i, j := HeadShape(s);
    SplitAtEquals(s, i, j);
    KeyBetween(s, i, j);
  }

  lemma SplitAtEquals(s: string, i: nat, j: nat)
    requires i <= j < |s| && s[j] == '='
    ensures s == KeyPair(s[..i], s[i..j], s[j + 1..])
  {
    assert s[j..] == "=" + s[j + 1..] && s[i..] == s[i..j] + s[j..] && s == s[..i] + s[i..];
  }

  lemma KeyBetween(s: string, i: nat, j: nat)
    requires i < j <= |s| && IsLetter(s[i]) && forall k :: i < k < j ==> IsKeyChar(s[k])
    requires forall k :: 0 <= k < i ==> IsBlank(s[k])
    ensures IsKey(s[..i], s[i..j])
  {
  }

  /** The test the masking makes finds exactly the strings that open with a key and '='. */
  lemma KeyValueHeadIff(s: string)
    ensures KeyValueHead(s) <==> OpensWithKey(s)
  {
    if KeyValueHead(s) { HeadIsPair(s); }
    if blanks, key, rest :| IsKey(blanks, key) && s == KeyPair(blanks, key, rest) { PairIsHead(blanks, key, rest); }
  }

  /** No string without '=' does. */
  lemma KeysNeedEquals(s: string)
    requires '=' !in s
    ensures !OpensWithKey(s)
  {
  }

  /** A user in front of a ':' decides it alone. */
  lemma UserOpensWithKeyIff(user: string)
    ensures OpensWithKey(user + ":") <==> OpensWithKey(user)
  {
    if blanks, key, rest :| IsKey(blanks, key) && user == KeyPair(blanks, key, rest) {
      assert user + ":" == KeyPair(blanks, key, rest + ":");
    }
    if blanks, key, rest :| IsKey(blanks, key) && user + ":" == KeyPair(blanks, key, rest) {
      var s, n := user + ":", |blanks| + |key|;
      assert s[n] == '=' && s[|user|] == ':';
      assert s[n + 1..] == rest && rest != "";
      assert user == s[..|user|] == KeyPair(blanks, key, rest[..|rest| - 1]);
    }
  }

  /** The keyword dialects are left to the pass over keys: a string that opens with a key
      and '=' comes back as it is, whatever follows, unless it holds a "://". */
  lemma KeyValueUntouched(blanks: string, key: string, rest: string)
    requires IsKey(blanks, key) && SchemeSep(KeyPair(blanks, key, rest)) < 0
    ensures Mask(KeyPair(blanks, key, rest)) == KeyPair(blanks, key, rest)
  {
    PairIsHead(blanks, key, rest);
  }

  /** So what a log line shows of it is what that pass makes of the string itself. */
  lemma KeyValueLeftToKeys(blanks: string, key: string, rest: string, maskKeys: string -> string)
    requires IsKey(blanks, key) && SchemeSep(KeyPair(blanks, key, rest)) < 0
    ensures Redacted(KeyPair(blanks, key, rest), maskKeys) == maskKeys(KeyPair(blanks, key, rest))
  {
    KeyValueUntouched(blanks, key, rest);
  }

  // ---- credentials inside a string ----

  ghost predicate Free(s: string, p: char -> bool) {
    forall i :: 0 <= i < |s| ==> !p(s[i])
  }

  function Credentials(user: string, password: string, rest: string): string {
    (user + ":" + password) + ("@" + rest)
  }

  /** `@rest` from the last '@' before `end` on. */
  function FromLastAt(rest: string, end: nat): string
    requires 0 < end <= |rest| + 1
  {
    var t := "@" + rest;
    assert t[..end][0] == '@';
    t[LastIndex(t[..end], '@')..]
  }

  lemma LastIndexConcat(a: string, b: string, c: char)
    requires c in b
    ensures LastIndex(a + b, c) == |a| + LastIndex(b, c)
  {
    var i := LastIndex(b, c);
    var k :| 0 <= k < |b| && b[k] == c;
    assert i >= k;
    assert (a + b)[|a| + i] == c;
    assert forall j :: |a| + i < j < |a + b| ==> (a + b)[j] == b[j - |a|];
  }

  lemma FirstWhereAt(s: string, p: char -> bool, i: nat)
    requires i < |s| && p(s[i]) && forall j :: 0 <= j < i ==> !p(s[j])
    ensures FirstWhere(s, p) == i
  {
  }

  lemma FirstColon(user: string, more: string)
    requires ':' !in user
    ensures FirstWhere(user + ":" + more, IsColon) == |user|
  {
    var s := user + ":" + more;
    assert forall j :: 0 <= j < |user| ==> s[j] == user[j];
    FirstWhereAt(s, IsColon, |user|);
  }

  /** What the mask does where the region holds a ':' in front of its last '@'. */
  lemma MaskShape(s: string, end: nat, cut: nat, at: nat)
    requires 0 < cut <= at < end <= |s|
    requires s[at] == '@' && forall j :: at < j < end ==> s[j] != '@'
    requires s[cut - 1] == ':' && forall j :: 0 <= j < cut - 1 ==> s[j] != ':'
    ensures MaskUserInfo(s, end) == Hide(s[..cut], s[at..])
  {
    assert LastIndex(s[..end], '@') == at;
    FirstWhereAt(s[..at], IsColon, cut - 1);
  }

  /** Inside a region that reaches past the password's '@', everything from the first ':'
      to the last '@' is masked, whatever the password is. */
  lemma MaskCredentials(user: string, password: string, rest: string, e: nat, end: nat)
    requires ':' !in user && 0 < e <= |rest| + 1 && end == |user| + 1 + |password| + e
    ensures MaskUserInfo(Credentials(user, password, rest), end) == Hide(user + ":", FromLastAt(rest, e))
  {
    var head, t := user + ":" + password, "@" + rest;
    var s := head + t;
    assert t[..e][0] == '@';
    var inner := LastIndex(t[..e], '@');
    assert forall j :: inner < j < e ==> t[j] == t[..e][j];
    HeadOfCredentials(user, password);
    var cut, at := |user| + 1, |head| + inner;
    MaskShape(s, end, cut, at);
    TakeOfConcat(head, t, cut);
    DropOfConcat(head, t, inner, at);
  }

  lemma TakeOfConcat(a: string, b: string, n: nat)
    requires n <= |a|
    ensures (a + b)[..n] == a[..n]
  {
  }

  lemma DropOfConcat(a: string, b: string, i: nat, n: nat)
    requires n == |a| + i <= |a| + |b|
    ensures (a + b)[n..] == b[i..]
  {
  }

  lemma HeadOfCredentials(user: string, password: string)
    requires ':' !in user
    ensures var head := user + ":" + password;
            && |head| > |user| && head[..|user| + 1] == user + ":" && head[|user|] == ':'
            && forall j :: 0 <= j < |user| ==> head[j] != ':'
  {
  }

  // ---- URIs ----

  function Uri(scheme: string, user: string, password: string, rest: string): string {
    scheme + "://" + Credentials(user, password, rest)
  }

  /** The masked form, in which no password appears. */
  function MaskedUri(scheme: string, user: string, rest: string): string {
    scheme + "://" + Hide(user + ":", FromLastAt(rest, FirstWhere("@" + rest, IsDelim)))
  }

  lemma UriSplits(scheme: string, tail: string)
    requires ':' !in scheme
    ensures SchemeSep(scheme + "://" + tail) == |scheme|
    ensures (scheme + "://" + tail)[..|scheme| + 3] == scheme + "://"
    ensures (scheme + "://" + tail)[|scheme| + 3..] == tail
  {
    var s := scheme + "://" + tail;
    assert SepAt(s, |scheme|);
    assert forall j :: 0 <= j < |scheme| ==> s[j] == scheme[j];
  }

  lemma MaskOfUri(scheme: string, tail: string)
    requires ':' !in scheme
    ensures Mask(scheme + "://" + tail) == scheme + "://" + MaskUserInfo(tail, UriAuthorityEnd(tail))
  {
    UriSplits(scheme, tail);
  }

  lemma AuthorityEndsInRest(user: string, password: string, rest: string)
    requires Free(user, IsDelim) && Free(password, IsDelim)
    ensures UriAuthorityEnd(Credentials(user, password, rest)) ==
            |user + ":" + password| + FirstWhere("@" + rest, IsDelim)
    ensures FirstWhere("@" + rest, IsDelim) > 0
  {
    var s, t := Credentials(user, password, rest), "@" + rest;
    var off := |user| + 1 + |password|;
    assert s == user + ":" + password + t;
    var e := FirstWhere(t, IsDelim);
    assert t[0] == '@';
    forall j | 0 <= j < off + e ensures !IsDelim(s[j]) {
      if j < |user| { assert s[j] == user[j]; }
      else if j == |user| { assert s[j] == ':'; }
      else if j < off { assert s[j] == password[j - |user| - 1]; }
      else { assert s[j] == t[j - off]; }
    }
    if e < |t| {
      assert s[off + e] == t[e];
      FirstWhereAt(s, IsDelim, off + e);
    }
  }

  /** Two URIs that differ only in a password free of '/', '?' and '#' (so inside the
      authority of section 3.2 of RFC 3986) mask to the same string. */
  lemma UriPasswordMasked(scheme: string, user: string, password: string, rest: string)
    requires ':' !in scheme && ':' !in user && Free(user, IsDelim) && Free(password, IsDelim)
    ensures Mask(Uri(scheme, user, password, rest)) == MaskedUri(scheme, user, rest)
  {
    var s := Credentials(user, password, rest);
    MaskOfUri(scheme, s);
    AuthorityEndsInRest(user, password, rest);
    MaskCredentials(user, password, rest, FirstWhere("@" + rest, IsDelim), UriAuthorityEnd(s));
  }

  lemma TailShape(rest: string, end: nat)
    requires 0 < end <= |rest| + 1
    ensures 0 < |FromLastAt(rest, end)| <= |rest| + 1 && FromLastAt(rest, end)[0] == '@'
  {
    var t := "@" + rest;
    assert t[..end][0] == '@';
  }

  /** A delimiter in the password ends the authority inside it. */
  lemma AuthorityEndsInPassword(user: string, password: string, rest: string)
    requires Free(user, IsDelim) && !Free(password, IsDelim)
    ensures UriAuthorityEnd(Credentials(user, password, rest)) == |user| + 1 + FirstWhere(password, IsDelim)
    ensures FirstWhere(password, IsDelim) < |password|
  {
    var s := Credentials(user, password, rest);
    var u, d := |user| + 1, FirstWhere(password, IsDelim);
    assert forall j :: 0 <= j < |user| ==> s[j] == user[j];
    assert s[|user|] == ':';
    assert forall j :: 0 <= j < |password| ==> s[u + j] == password[j];
    forall j | 0 <= j < u + d ensures !IsDelim(s[j]) {
      if j >= u { assert s[j] == password[j - u]; }
    }
    FirstWhereAt(s, IsDelim, u + d);
  }

  /** Without an '@' in front of the delimiter the string comes back as it is. */
  lemma ShownWhole(user: string, head: string, tail: string)
    requires ':' !in user && '@' !in head
    ensures MaskUserInfo(user + ":" + head + tail, |user| + 1 + |head|) == user + ":" + head + tail
  {
  }

  /** With one, the rest of the password stays behind it. */
  lemma ShownFromAt(user: string, head: string, tail: string)
    requires ':' !in user && '@' in head
    ensures |MaskUserInfo(user + ":" + head + tail, |user| + 1 + |head|)| > |user| + 4 + |tail|
  {
    var s := user + ":" + head + tail;
    var end := |user| + 1 + |head|;
    assert s[..end] == (user + ":") + head;
    LastIndexConcat(user + ":", head, '@');
    var k := LastIndex(head, '@');
    var at := |user| + 1 + k;
    assert s[..at] == user + ":" + head[..k];
    FirstColon(user, head[..k]);
  }

  /** Either way, what comes back is not the masked form. */
  lemma DelimiterExposes(user: string, password: string, rest: string, tail: string)
    requires ':' !in user && Free(user, IsDelim) && !Free(password, IsDelim)
    requires 0 < |tail| <= |rest| + 1 && tail[0] == '@'
    ensures var s := Credentials(user, password, rest);
            MaskUserInfo(s, UriAuthorityEnd(s)) != Hide(user + ":", tail)
  {
    AuthorityEndsInPassword(user, password, rest);
    CutInPassword(user, password, rest, FirstWhere(password, IsDelim), tail);
  }

  /** A region that ends at a delimiter inside the password does not hide it. */
  lemma CutInPassword(user: string, password: string, rest: string, d: nat, tail: string)
    requires ':' !in user && d < |password| && IsDelim(password[d])
    requires 0 < |tail| <= |rest| + 1 && tail[0] == '@'
    ensures MaskUserInfo(Credentials(user, password, rest), |user| + 1 + d) != Hide(user + ":", tail)
  {
    var s := Credentials(user, password, rest);
    var head, behind := password[..d], password[d..] + "@" + rest;
    assert s == user + ":" + head + behind;
    if '@' in head {
      ShownFromAt(user, head, behind);
    } else {
      ShownWhole(user, head, behind);
      assert behind[0] == password[d];
      NotStars(user, head, behind, tail);
    }
  }

  lemma NotStars(user: string, head: string, behind: string, tail: string)
    requires '@' !in head && |behind| > 0 && IsDelim(behind[0])
    requires |tail| > 0 && tail[0] == '@'
    ensures user + ":" + head + behind != Hide(user + ":", tail)
  {
    var a, b := head + behind, "***" + tail;
    assert b[0] == '*' && b[1] == '*' && b[2] == '*' && b[3] == '@';
    assert a != b by {
      if |head| > 3 { assert a[3] == head[3]; } else { assert a[|head|] == behind[0]; }
    }
    SameHeadDiffers(user + ":", a, b);
    assert (user + ":") + a == user + ":" + head + behind;
    assert (user + ":") + b == Hide(user + ":", tail);
  }

  /** The URI form is masked exactly when the password stays inside the authority. */
  lemma UriMaskedIff(scheme: string, user: string, password: string, rest: string)
    requires ':' !in scheme && ':' !in user && Free(user, IsDelim)
    ensures var hidden := Mask(Uri(scheme, user, password, rest)) == MaskedUri(scheme, user, rest);
            hidden <==> '/' !in password && '?' !in password && '#' !in password
  {
    assert Free(password, IsDelim) <==> '/' !in password && '?' !in password && '#' !in password;
    if Free(password, IsDelim) {
      UriPasswordMasked(scheme, user, password, rest);
    } else {
      UriExposed(scheme, user, password, rest);
    }
  }

  lemma UriExposed(scheme: string, user: string, password: string, rest: string)
    requires ':' !in scheme && ':' !in user && Free(user, IsDelim) && !Free(password, IsDelim)
    ensures Mask(Uri(scheme, user, password, rest)) != MaskedUri(scheme, user, rest)
  {
    var s := Credentials(user, password, rest);
    AuthorityEndsInRest(user, "", rest);
    var tail := FromLastAt(rest, FirstWhere("@" + rest, IsDelim));
    TailShape(rest, FirstWhere("@" + rest, IsDelim));
    DelimiterExposes(user, password, rest, tail);
    MaskOfUri(scheme, s);
    SameHeadDiffers(scheme + "://", MaskUserInfo(s, UriAuthorityEnd(s)), Hide(user + ":", tail));
  }

  lemma SameHeadDiffers(head: string, a: string, b: string)
    requires a != b
    ensures head + a != head + b
  {
    assert (head + a)[|head|..] == a && (head + b)[|head|..] == b;
  }

  // ---- driver DSNs ----

  ghost predicate HasSep(s: string) {
    exists i: nat :: SepAt(s, i)
  }

  predicate OpensWithSlashes(s: string) {
    |s| >= 2 && s[0] == '/' && s[1] == '/'
  }

  lemma SepShifted(before: string, s: string, behind: string, i: nat)
    requires i + 3 <= |s|
    ensures SepAt(before + s + behind, |before| + i) == SepAt(s, i)
  {
  }

  lemma SepReachesCredentials(user: string, password: string, rest: string)
    requires OpensWithSlashes(password) || HasSep(password) || HasSep(rest)
    ensures HasSep(Credentials(user, password, rest))
  {
    var s := Credentials(user, password, rest);
    if OpensWithSlashes(password) {
      assert SepAt(s, |user|);
    } else if i: nat :| SepAt(password, i) {
      assert s == (user + ":") + password + ("@" + rest);
      SepShifted(user + ":", password, "@" + rest, i);
    } else {
      var i: nat :| SepAt(rest, i);
      assert s == (user + ":" + password + "@") + rest + "";
      SepShifted(user + ":" + password + "@", rest, "", i);
    }
  }

  /** Where a "://" can come from in a driver DSN: the password, a password opening with
      "//" behind the colon, or what follows the credentials. */
  lemma SepInCredentials(user: string, password: string, rest: string)
    requires ':' !in user
    ensures HasSep(Credentials(user, password, rest)) <==>
            OpensWithSlashes(password) || HasSep(password) || HasSep(rest)
  {
    var s := Credentials(user, password, rest);
    if i: nat :| SepAt(s, i) {
      SepComesFrom(user, password, rest, i);
    }
    if OpensWithSlashes(password) || HasSep(password) || HasSep(rest) {
      SepReachesCredentials(user, password, rest);
    }
  }

  lemma SepComesFrom(user: string, password: string, rest: string, i: nat)
    requires ':' !in user && SepAt(Credentials(user, password, rest), i)
    ensures OpensWithSlashes(password) || HasSep(password) || HasSep(rest)
  {
    var s, r := Credentials(user, password, rest), |user| + |password| + 2;
    assert s[r - 1] == '@';
    if i >= r {
      assert s == (user + ":" + password + "@") + rest + "";
      SepShifted(user + ":" + password + "@", rest, "", i - r);
    } else {
      SepBeforeRest(user, password, rest, i);
    }
  }

  lemma FirstWhereStops(user: string, p: char -> bool, x: string)
    requires p(':')
    ensures FirstWhere(user + ":" + x, p) == FirstWhere(user + ":", p) <= |user|
  {
    var s, t := user + ":" + x, user + ":";
    assert forall j :: 0 <= j < |t| ==> s[j] == t[j];
    assert t[|user|] == ':';
    FirstWhereAt(s, p, FirstWhere(t, p));
  }

  /** Whether the DSN opens with `key=` is settled before the first ':'. */
  lemma HeadIgnoresPassword(user: string, x: string)
    ensures KeyValueHead(user + ":" + x) == KeyValueHead(user + ":")
  {
    var s, t := user + ":" + x, user + ":";
    FirstWhereStops(user, NotBlank, x);
    var i := FirstWhere(t, NotBlank);
    assert s[i] == t[i];
    if IsLetter(t[i]) {
      assert t[i] != ':';
      assert s[i + 1..] == user[i + 1..] + ":" + x && t[i + 1..] == user[i + 1..] + ":";
      FirstWhereStops(user[i + 1..], NotKeyChar, x);
      var j := i + 1 + FirstWhere(t[i + 1..], NotKeyChar);
      assert s[j] == t[j];
    }
  }

  function MaskedDriver(user: string, rest: string): string
    requires '/' in rest
  {
    assert DriverAuthorityEnd("@" + rest) > 0;
    Hide(user + ":", FromLastAt(rest, DriverAuthorityEnd("@" + rest)))
  }

  lemma DatabaseEndsInRest(user: string, password: string, rest: string)
    requires '/' in rest
    ensures 0 < DriverAuthorityEnd("@" + rest) <= |rest|
    ensures DriverAuthorityEnd(Credentials(user, password, rest)) ==
            |user| + 1 + |password| + DriverAuthorityEnd("@" + rest)
  {
    LastIndexConcat("@", rest, '/');
    LastIndexConcat(user + ":" + password, "@" + rest, '/');
  }

  lemma MaskOfDriver(user: string, password: string, rest: string)
    requires ':' !in user && !OpensWithKey(user)
    requires !OpensWithSlashes(password) && !HasSep(password) && !HasSep(rest)
    ensures var s := Credentials(user, password, rest);
            Mask(s) == MaskUserInfo(s, DriverAuthorityEnd(s))
  {
    SepInCredentials(user, password, rest);
    assert Credentials(user, password, rest) == user + ":" + (password + "@" + rest);
    HeadIgnoresPassword(user, password + "@" + rest);
    KeyValueHeadIff(user + ":");
    UserOpensWithKeyIff(user);
  }

  /** A driver DSN with a database part is masked whatever its password, '/' and '@'
      included, as long as no "://" makes it look like a URI. */
  lemma DriverPasswordMasked(user: string, password: string, rest: string)
    requires ':' !in user && '/' in rest && !OpensWithKey(user)
    requires !OpensWithSlashes(password) && !HasSep(password) && !HasSep(rest)
    ensures Mask(Credentials(user, password, rest)) == MaskedDriver(user, rest)
  {
    var s := Credentials(user, password, rest);
    MaskOfDriver(user, password, rest);
    DatabaseEndsInRest(user, password, rest);
    MaskCredentials(user, password, rest, DriverAuthorityEnd("@" + rest), DriverAuthorityEnd(s));
  }

  /** In particular every user without '=' in it. */
  lemma PlainUserMasked(user: string, password: string, rest: string)
    requires ':' !in user && '=' !in user && '/' in rest
    requires !OpensWithSlashes(password) && !HasSep(password) && !HasSep(rest)
    ensures Mask(Credentials(user, password, rest)) == MaskedDriver(user, rest)
  {
    KeysNeedEquals(user);
    DriverPasswordMasked(user, password, rest);
  }

  /** With no "://" behind the credentials, a driver password is hidden exactly when it
      holds none itself and does not complete one with the ':' in front of it. */
  lemma DriverHiddenIff(user: string, password: string, rest: string)
    requires ':' !in user && '/' in rest && !OpensWithKey(user) && !HasSep(rest)
    ensures Mask(Credentials(user, password, rest)) == MaskedDriver(user, rest) <==>
            !OpensWithSlashes(password) && !HasSep(password)
  {
    if !OpensWithSlashes(password) && !HasSep(password) {
      DriverPasswordMasked(user, password, rest);
    } else {
      SepReachesCredentials(user, password, rest);
      MaskKeepsSep(Credentials(user, password, rest));
      MaskedDriverHasNoSep(user, rest);
    }
  }

  lemma MaskKeepsSep(dsn: string)
    requires HasSep(dsn)
    ensures HasSep(Mask(dsn))
  {
    var j: nat :| SepAt(dsn, j);
    assert SepAt(Mask(dsn), SchemeSep(dsn));
  }

  lemma MaskedDriverHasNoSep(user: string, rest: string)
    requires ':' !in user && '/' in rest && !HasSep(rest)
    ensures !HasSep(MaskedDriver(user, rest))
  {
    var e := DriverAuthorityEnd("@" + rest);
    DatabaseEndsInRest("", "", rest);
    TailShape(rest, e);
    var tail := FromLastAt(rest, e);
    TailHasNoSep(rest, e);
    StarsAreCredentials(user, tail);
    var behind := tail[1..];
    SepInCredentials(user, "***", behind);
    assert !HasSep(behind) && !HasSep("***") && !OpensWithSlashes("***");
  }

  lemma StarsAreCredentials(user: string, tail: string)
    requires tail != "" && tail[0] == '@'
    ensures Hide(user + ":", tail) == Credentials(user, "***", tail[1..])
  {
    assert tail == "@" + tail[1..];
  }

  lemma TailHasNoSep(rest: string, e: nat)
    requires 0 < e <= |rest| + 1 && !HasSep(rest) && |FromLastAt(rest, e)| > 0
    ensures !HasSep(FromLastAt(rest, e)[1..])
  {
    var t, behind := "@" + rest, FromLastAt(rest, e)[1..];
    assert t[..e][0] == '@';
    var k := LastIndex(t[..e], '@');
    assert behind == rest[k..];
    if j: nat :| SepAt(behind, j) { assert SepAt(rest, k + j); }
  }

  /** For a given user and remainder, every such password is masked alike exactly when
      the remainder holds no "://". */
  lemma DriverMaskedIff(user: string, rest: string)
    requires ':' !in user && '/' in rest && !OpensWithKey(user)
    ensures !HasSep(rest) <==>
            forall p, q :: !OpensWithSlashes(p) && !HasSep(p) && !OpensWithSlashes(q) && !HasSep(q) ==>
              Mask(Credentials(user, p, rest)) == Mask(Credentials(user, q, rest))
  {
    if HasSep(rest) {
      ShownUpToSep(user, "a", rest);
      ShownUpToSep(user, "b", rest);
      assert !HasSep("a") && !HasSep("b");
      assert Mask(Credentials(user, "a", rest))[|user| + 1] != Mask(Credentials(user, "b", rest))[|user| + 1];
    } else {
      forall p, q | !OpensWithSlashes(p) && !HasSep(p) && !OpensWithSlashes(q) && !HasSep(q)
        ensures Mask(Credentials(user, p, rest)) == Mask(Credentials(user, q, rest))
      {
        DriverPasswordMasked(user, p, rest);
        DriverPasswordMasked(user, q, rest);
      }
    }
  }

  /** With a "://" behind the credentials everything before it is returned as it is. */
  lemma ShownUpToSep(user: string, password: string, rest: string)
    requires ':' !in user && HasSep(rest) && !OpensWithSlashes(password) && !HasSep(password)
    ensures user + ":" + password <= Mask(Credentials(user, password, rest))
  {
    var s, shown := Credentials(user, password, rest), user + ":" + password;
    SepInCredentials(user, password, rest);
    var i := SchemeSep(s);
    assert i >= |shown| by {
      if i < |shown| { SepBeforeRest(user, password, rest, i); }
    }
    KeptUpToSep(shown, "@" + rest);
  }

  lemma KeptUpToSep(shown: string, behind: string)
    requires SchemeSep(shown + behind) >= |shown|
    ensures shown <= Mask(shown + behind)
  {
  }

  lemma SepBeforeRest(user: string, password: string, rest: string, i: nat)
    requires ':' !in user && SepAt(Credentials(user, password, rest), i) && i <= |user| + |password|
    ensures OpensWithSlashes(password) || HasSep(password)
  {
    var s, u := Credentials(user, password, rest), |user| + 1;
    assert forall j :: 0 <= j < |user| ==> s[j] == user[j];
    assert s[u + |password|] == '@';
    if i >= u {
      assert s == (user + ":") + password + ("@" + rest);
      SepShifted(user + ":", password, "@" + rest, i - u);
    } else {
      assert s[u] == password[0] && s[u + 1] == password[1];
    }
  }

  /** A password opening with "//" turns the DSN into a URI of scheme `user`, which has
      nothing to mask. */
  lemma SlashesExpose(user: string, q: string, rest: string)
    requires ':' !in user && ':' !in q && '@' !in q && Free(q, IsDelim) && '@' !in rest
    ensures Mask(Credentials(user, "//" + q, rest)) == Credentials(user, "//" + q, rest)
  {
    var tail := q + "@" + rest;
    var s := Credentials(user, "//" + q, rest);
    assert s == user + "://" + tail;
    UriSplits(user, tail);
    var end := UriAuthorityEnd(tail);
    assert forall j :: 0 <= j < |q| ==> tail[j] == q[j];
    assert tail[|q|] == '@';
    assert end > |q|;
    assert forall j :: |q| < j < |tail| ==> tail[j] == rest[j - |q| - 1];
    assert LastIndex(tail[..end], '@') == |q|;
    assert tail[..|q|] == q;
    assert FirstWhere(q, IsColon) == |q|;
  }

  /** Without a '/' behind the credentials the masking reaches to the end of the string, and
      a driver DSN is masked exactly when its password has no '/' either. */
  lemma DriverWithoutDatabase(user: string, password: string, rest: string)
    requires ':' !in user && '/' !in user && '/' !in rest && !OpensWithKey(user)
    requires !OpensWithSlashes(password) && !HasSep(password)
    ensures Mask(Credentials(user, password, rest)) == Hide(user + ":", FromLastAt(rest, |rest| + 1)) <==>
            '/' !in password
  {
    assert !HasSep(rest);
    MaskOfDriver(user, password, rest);
    if '/' in password { CutShows(user, password, rest); } else { WholeIsMasked(user, password, rest); }
  }

  lemma WholeIsMasked(user: string, password: string, rest: string)
    requires ':' !in user && '/' !in user && '/' !in rest && '/' !in password
    ensures var s := Credentials(user, password, rest);
            MaskUserInfo(s, DriverAuthorityEnd(s)) == Hide(user + ":", FromLastAt(rest, |rest| + 1))
  {
    EndsWithString(user, password, rest);
    MaskCredentials(user, password, rest, |rest| + 1, |Credentials(user, password, rest)|);
  }

  lemma CutShows(user: string, password: string, rest: string)
    requires ':' !in user && '/' !in rest && '/' in password
    ensures var s := Credentials(user, password, rest);
            MaskUserInfo(s, DriverAuthorityEnd(s)) != Hide(user + ":", FromLastAt(rest, |rest| + 1))
  {
    TailShape(rest, |rest| + 1);
    EndsInPassword(user, password, rest);
    CutInPassword(user, password, rest, LastIndex(password, '/'), FromLastAt(rest, |rest| + 1));
  }

  lemma EndsWithString(user: string, password: string, rest: string)
    requires '/' !in user && '/' !in password && '/' !in rest
    ensures DriverAuthorityEnd(Credentials(user, password, rest)) == |Credentials(user, password, rest)|
  {
  }

  lemma EndsInPassword(user: string, password: string, rest: string)
    requires '/' in password && '/' !in rest
    ensures DriverAuthorityEnd(Credentials(user, password, rest)) == |user| + 1 + LastIndex(password, '/')
  {
    var s, d := Credentials(user, password, rest), LastIndex(password, '/');
    var u, r := |user| + 1, |user| + |password| + 2;
    assert s[u + d] == password[d];
    forall j | u + d < j < |s| ensures s[j] != '/' {
      if j < r - 1 { assert s[j] == password[j - u]; }
      else if j == r - 1 { assert s[j] == '@'; }
      else { assert s[j] == rest[j - r]; }
    }
  }

  /** What a log line shows does not depend on the password. */
  lemma RedactedHidesPassword(
      scheme: string, user: string, p: string, q: string, rest: string, maskKeys: string -> string)
    requires ':' !in user
    ensures ':' !in scheme && Free(user, IsDelim) && Free(p, IsDelim) && Free(q, IsDelim) ==>
              Redacted(Uri(scheme, user, p, rest), maskKeys) == Redacted(Uri(scheme, user, q, rest), maskKeys)
    ensures '/' in rest && !OpensWithKey(user) && !HasSep(rest) &&
            !OpensWithSlashes(p) && !HasSep(p) && !OpensWithSlashes(q) && !HasSep(q) ==>
              Redacted(Credentials(user, p, rest), maskKeys) == Redacted(Credentials(user, q, rest), maskKeys)
  {
    if ':' !in scheme && Free(user, IsDelim) && Free(p, IsDelim) && Free(q, IsDelim) {
      UriPasswordMasked(scheme, user, p, rest);
      UriPasswordMasked(scheme, user, q, rest);
    }
    if '/' in rest && !OpensWithKey(user) && !HasSep(rest) &&
       !OpensWithSlashes(p) && !HasSep(p) && !OpensWithSlashes(q) && !HasSep(q) {
      DriverPasswordMasked(user, p, rest);
      DriverPasswordMasked(user, q, rest);
    }
  }
}
