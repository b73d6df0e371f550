/** `getdomainname` and `getdefaultsuffix`: the DNS domain of a host and the
    directory suffix derived from it.  The fully qualified host name, which
    the source obtains from `socket.getfqdn`, is an input here. */
module Domain {

  import opened Text

  /** `s.find(c)`: the index of the first `c` in `s`, or -1. */
  function Find(s: string, c: char): (i: int)
    ensures -1 <= i < |s|
    ensures i == -1 <==> c !in s
    ensures i >= 0 ==> s[i] == c && c !in s[..i]
  {
    if s == [] then -1
    else if s[0] == c then 0
    else
      var j := Find(s[1..], c);
      if j == -1 then -1
      else
        assert s[..j + 1] == [s[0]] + s[1..][..j];
        j + 1
  }

  /** `getdomainname`: what follows the first dot of the host name, or the
      empty string when it has no dot. */
  function DomainName(fqdn: string): (r: string)
    ensures '.' !in fqdn ==> r == ""
    ensures '.' in fqdn ==>
      var k := |fqdn| - |r| - 1;
      0 <= k && fqdn[k] == '.' && '.' !in fqdn[..k] && fqdn[k + 1..] == r
  {
    var index := Find(fqdn, '.');
    if index >= 0 then fqdn[index + 1..] else ""
  }

  /** The domain of `host.rest`, for a first label `host` without a dot, is `rest`. */
  lemma DomainAfterFirstDot(host: string, rest: string)
    requires '.' !in host
    ensures DomainName(host + "." + rest) == rest
  {
    var s := host + "." + rest;
    var i := Find(s, '.');
    assert s[|host|] == '.';
    assert s[|host| + 1..] == rest;
  }

  /** The domain is the host name's labels after the first, joined by dots. */
  lemma DomainNameLabels(fqdn: string)
    requires '.' in fqdn
    ensures DomainName(fqdn) == Join(Split(fqdn, '.')[1..], ".")
  {
    var k := Find(fqdn, '.');
    var host, dm := fqdn[..k], fqdn[k + 1..];
    assert fqdn == host + "." + dm;
    SplitAtFirst(host, dm, '.');
    JoinSplit(dm, '.');
  }

  /** `getdefaultsuffix`: one `dc=` component per label of the domain, in
      order, or `dc=localdomain` when there is no domain. */
  function DefaultSuffix(fqdn: string): (r: string)
    ensures DomainName(fqdn) == "" ==> r == "dc=localdomain"
    ensures DomainName(fqdn) != "" ==> r == "dc=" + Join(Split(DomainName(fqdn), '.'), ",dc=")
  {
    var dm := DomainName(fqdn);
    ReplaceIsJoinSplit(dm, '.', ",dc=");
    if dm != "" then "dc=" + Replace(dm, '.', ",dc=") else "dc=localdomain"
  }

  /** A host name without a dot has no domain, so its suffix is the fallback. */
  lemma NoDotNoDomain(fqdn: string)
    requires '.' !in fqdn
    ensures DefaultSuffix(fqdn) == "dc=localdomain"
  {
  }

  /** A host in the domain `a.b.c` gets the suffix `dc=a,dc=b,dc=c`. */
  lemma ThreeLabelSuffix(host: string, a: string, b: string, c: string)
    requires '.' !in host && '.' !in a && '.' !in b && '.' !in c
    ensures DefaultSuffix(host + "." + a + "." + b + "." + c) == "dc=" + a + ",dc=" + b + ",dc=" + c
  {
    var dm := a + "." + b + "." + c;
    RegroupHost(host, a, b, c);
    DomainAfterFirstDot(host, dm);
    assert dm[|a|] == '.';
    ThreeLabelSplit(a, b, c);
    ThreeLabelJoin(a, b, c);
  }

  lemma ThreeLabelJoin(a: string, b: string, c: string)
    ensures Join([a, b, c], ",dc=") == a + ",dc=" + b + ",dc=" + c
  {
    assert [a, b, c][1..] == [b, c] && [b, c][1..] == [c];
    assert Join([c], ",dc=") == c;
    assert Join([b, c], ",dc=") == b + ",dc=" + c;
    assert Join([a, b, c], ",dc=") == a + ",dc=" + (b + ",dc=" + c);
    Regroup(a, ",dc=", b, ",dc=", c);
  }

  lemma RegroupHost(h: string, a: string, b: string, c: string)
    ensures h + "." + a + "." + b + "." + c == h + "." + (a + "." + b + "." + c)
  {
  }

  lemma ThreeLabelSplit(a: string, b: string, c: string)
    requires '.' !in a && '.' !in b && '.' !in c
    ensures Split(a + "." + b + "." + c, '.') == [a, b, c]
  {
    Regroup(a, ".", b, ".", c);
    SplitAtFirst(a, b + "." + c, '.');
    SplitAtFirst(b, c, '.');
    SplitWithout(c, '.');
  }

  lemma Regroup(a: string, s: string, b: string, t: string, c: string)
    ensures a + s + b + t + c == a + s + (b + t + c)
  {
  }
}
