/** The client address behind a chain of proxies (bootstrap/trust_proxy.go:269-311). The
    address library and the trusted set are parameters. */
module ClientIP {
  import opened Options
  import opened Strings

  /** `isSpace` is what strings.TrimSpace trims; `parseIP` and `splitHost` are net.ParseIP
      and the host half of net.SplitHostPort with brackets trimmed; `trusted` is the
      configured allowlist. */
  datatype Net<!A> = Net(
    isSpace: char -> bool,
    parseIP: string -> Option<A>,
    splitHost: string -> Option<string>,
    trusted: A -> bool,
    show: A -> string)

  function TrimLeft(s: string, isSpace: char -> bool): string {
    if s != [] && isSpace(s[0]) then TrimLeft(s[1..], isSpace) else s
  }

  function TrimRight(s: string, isSpace: char -> bool): string {
    if s != [] && isSpace(s[|s| - 1]) then TrimRight(s[..|s| - 1], isSpace) else s
  }

  function ParseEntry<A>(net: Net<A>, raw: string): Option<A> {
    var e := TrimRight(TrimLeft(raw, net.isSpace), net.isSpace);
    if e == "" then None
    else if net.parseIP(e).Some? then net.parseIP(e)
    else match net.splitHost(e)
      case Some(host) => net.parseIP(host)
      case None => None
  }

  ghost predicate Blank(s: string, isSpace: char -> bool) {
    forall i :: 0 <= i < |s| ==> isSpace(s[i])
  }

  lemma {:induction false} TrimLeftSkips(a: string, e: string, isSpace: char -> bool)
    requires Blank(a, isSpace)
    ensures TrimLeft(a + e, isSpace) == TrimLeft(e, isSpace)
  {
    if a == [] {
      assert a + e == e;
    } else {
      assert (a + e)[0] == a[0] && (a + e)[1..] == a[1..] + e;
      TrimLeftSkips(a[1..], e, isSpace);
    }
  }

  lemma {:induction false} TrimRightSkips(e: string, b: string, isSpace: char -> bool)
    requires Blank(b, isSpace)
    ensures TrimRight(e + b, isSpace) == TrimRight(e, isSpace)
  {
    if b == [] {
      assert e + b == e;
    } else {
      var n := |b| - 1;
      assert (e + b)[|e + b| - 1] == b[n] && (e + b)[..|e + b| - 1] == e + b[..n];
      TrimRightSkips(e, b[..n], isSpace);
    }
  }

  lemma {:induction false} TrimLeftKeepsTail(e: string, b: string, isSpace: char -> bool)
    requires Blank(b, isSpace)
    ensures TrimLeft(e + b, isSpace) == TrimLeft(e, isSpace) + b ||
            (TrimLeft(e + b, isSpace) == [] == TrimLeft(e, isSpace))
  {
    if e == [] {
      TrimLeftSkips(b, [], isSpace);
      assert b + [] == b && e + b == b;
    } else if isSpace(e[0]) {
      assert (e + b)[0] == e[0] && (e + b)[1..] == e[1..] + b;
      TrimLeftKeepsTail(e[1..], b, isSpace);
    } else {
      assert (e + b)[0] == e[0];
    }
  }

  /** Space around an entry is no part of it. */
  lemma EntryIgnoresSpace<A>(net: Net<A>, a: string, e: string, b: string)
    requires Blank(a, net.isSpace) && Blank(b, net.isSpace)
    ensures ParseEntry(net, a + e + b) == ParseEntry(net, e)
  {
    assert a + e + b == a + (e + b);
    TrimLeftSkips(a, e + b, net.isSpace);
    TrimLeftKeepsTail(e, b, net.isSpace);
    TrimRightSkips(TrimLeft(e, net.isSpace), b, net.isSpace);
  }

  /** Something is written, and no space leads or trails it. */
  ghost predicate Trimmed(s: string, isSpace: char -> bool) {
    s != "" && !isSpace(s[0]) && !isSpace(s[|s| - 1])
  }

  /** An entry with a port reads as its host does. */
  lemma PortIsIgnored<A>(net: Net<A>, entry: string, host: string)
    requires Trimmed(entry, net.isSpace) && Trimmed(host, net.isSpace)
    requires net.parseIP(entry).None? && net.splitHost(entry) == Some(host) && net.parseIP(host).Some?
    ensures ParseEntry(net, entry) == ParseEntry(net, host) == net.parseIP(host)
  {
  }

  /** Nothing else reads: an entry has an address exactly when it, or the host in it, is one. */
  lemma ReadsIff<A>(net: Net<A>, a: string, e: string, b: string)
    requires Blank(a, net.isSpace) && Blank(b, net.isSpace) && Trimmed(e, net.isSpace)
    ensures ParseEntry(net, a + e + b).None? <==>
            net.parseIP(e).None? && forall host :: net.splitHost(e) == Some(host) ==> net.parseIP(host).None?
    ensures net.parseIP(e).Some? ==> ParseEntry(net, a + e + b) == net.parseIP(e)
  {
    EntryIgnoresSpace(net, a, e, b);
  }

  predicate TrustedEntry<A>(net: Net<A>, raw: string) {
    var a := ParseEntry(net, raw);
    a.Some? && net.trusted(a.value)
  }

  /** What a walk that reaches this entry answers, given it is not trusted. */
  function Answer<A>(net: Net<A>, raw: string): string {
    match ParseEntry(net, raw)
    case None => ""
    case Some(a) => net.show(a)
  }

  /** From the right: the first entry that is not trusted decides. */
  function Decide<A>(net: Net<A>, parts: seq<string>): string {
    if parts == [] then ""
    else if TrustedEntry(net, parts[|parts| - 1]) then Decide(net, parts[..|parts| - 1])
    else Answer(net, parts[|parts| - 1])
  }

  function Resolved<A>(net: Net<A>, chain: string): string {
    Decide(net, Split(chain, ','))
  }

  method ResolveClientIP<A>(net: Net<A>, chain: string) returns (r: string)
    ensures r == Resolved(net, chain)
  {
    if chain == "" {
      assert Split(chain, ',') == [""];
      return "";
    }
    var parts := Split(chain, ',');
    var i := |parts| - 1;
    assert parts[..i + 1] == parts;
    while i >= 0
      invariant -1 <= i < |parts|
      invariant Decide(net, parts[..i + 1]) == Decide(net, parts)
    {
      assert parts[..i + 1][..i] == parts[..i];
      var ip := ParseEntry(net, parts[i]);
      if ip.None? { return ""; }
      if !net.trusted(ip.value) { return net.show(ip.value); }
      i := i - 1;
    }
    r := "";
  }

  ghost predicate AllTrusted<A>(net: Net<A>, parts: seq<string>) {
    forall i :: 0 <= i < |parts| ==> TrustedEntry(net, parts[i])
  }

  lemma {:induction false} DecideConcat<A>(net: Net<A>, left: seq<string>, right: seq<string>)
    ensures Decide(net, left + right) == if AllTrusted(net, right) then Decide(net, left) else Decide(net, right)
  {
    if right == [] {
      assert left + right == left;
    } else {
      var n := |right| - 1;
      assert (left + right)[..|left + right| - 1] == left + right[..n];
      DecideConcat(net, left, right[..n]);
      if TrustedEntry(net, right[n]) {
        assert AllTrusted(net, right) <==> AllTrusted(net, right[..n]) by {
          if AllTrusted(net, right[..n]) {
            forall i | 0 <= i < |right| ensures TrustedEntry(net, right[i]) {
              if i < n { assert right[i] == right[..n][i]; }
            }
          }
        }
      }
    }
  }

  /** The walk composes: a suffix that is trusted throughout hands over to what is left of
      it, any other suffix decides alone. */
  lemma ResolveComposes<A>(net: Net<A>, p: string, s: string)
    ensures Resolved(net, p + "," + s) == if AllTrusted(net, Split(s, ',')) then Resolved(net, p) else Resolved(net, s)
  {
    SplitConcat(p, s, ',');
    assert p + [','] + s == p + "," + s;
    DecideConcat(net, Split(p, ','), Split(s, ','));
  }

  /** Nothing left of an untrusted or unreadable entry can change the answer. */
  lemma ForgedPrefixIsIgnored<A>(net: Net<A>, p: string, q: string, s: string)
    requires !AllTrusted(net, Split(s, ','))
    ensures Resolved(net, p + "," + s) == Resolved(net, q + "," + s) == Resolved(net, s)
  {
    ResolveComposes(net, p, s);
    ResolveComposes(net, q, s);
  }

  /** The deciding entry: not trusted, and only trusted entries to its right. */
  ghost predicate Decides<A>(net: Net<A>, parts: seq<string>, i: nat) {
    i < |parts| && !TrustedEntry(net, parts[i]) && forall j :: i < j < |parts| ==> TrustedEntry(net, parts[j])
  }

  lemma DeciderDecides<A>(net: Net<A>, parts: seq<string>, i: nat)
    requires Decides(net, parts, i)
    ensures Decide(net, parts) == Answer(net, parts[i])
  {
  }

  lemma {:induction false} DeciderExists<A>(net: Net<A>, parts: seq<string>) returns (i: nat)
    requires !AllTrusted(net, parts)
    ensures Decides(net, parts, i)
  {
    i := |parts| - 1;
    if TrustedEntry(net, parts[i]) {
      assert !AllTrusted(net, parts[..i]) by {
        var k :| 0 <= k < |parts| && !TrustedEntry(net, parts[k]);
        assert parts[..i][k] == parts[k];
      }
      i := DeciderExists(net, parts[..i]);
      assert forall j :: i < j < |parts| - 1 ==> parts[..|parts| - 1][j] == parts[j];
    }
  }

  ghost predicate DecidesAs<A>(net: Net<A>, parts: seq<string>, i: nat, answer: string) {
    Decides(net, parts, i) && ParseEntry(net, parts[i]).Some? && net.show(ParseEntry(net, parts[i]).value) == answer
  }

  /** Some entry decides as `answer`. */
  ghost predicate Decided<A>(net: Net<A>, parts: seq<string>, answer: string) {
    exists i: nat :: DecidesAs(net, parts, i, answer)
  }

  lemma DecidedIff<A>(net: Net<A>, parts: seq<string>, answer: string)
    requires answer != ""
    ensures Decide(net, parts) == answer <==> Decided(net, parts, answer)
  {
    DecideConcat(net, [], parts);
    assert [] + parts == parts;
    if Decide(net, parts) == answer {
      var i := DeciderExists(net, parts);
      DeciderDecides(net, parts, i);
      assert DecidesAs(net, parts, i, answer);
    }
    if Decided(net, parts, answer) {
      var i: nat :| DecidesAs(net, parts, i, answer);
      DeciderDecides(net, parts, i);
    }
  }

  /** A non-empty answer is the address of an entry that reads, is not trusted, and has
      only trusted entries to its right; and such an entry is always the answer. */
  lemma AnswerIff<A>(net: Net<A>, chain: string, answer: string)
    requires answer != ""
    ensures Resolved(net, chain) == answer <==> Decided(net, Split(chain, ','), answer)
  {
    DecidedIff(net, Split(chain, ','), answer);
  }
}
