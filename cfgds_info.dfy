/** The `host[:port]` split shared by `getoldcfgdsinfo` and
    `getnewcfgdsinfo`: the host-and-port text of the configuration
    directory's LDAP URL is split at `:`, the port defaults to 389, and the
    URL's DN is put last.  The URL parsing itself (`LDAPUrl`) is outside the
    model; its `hostport` and `dn` are the inputs. */
module CfgDsInfo {

  import opened Base
  import opened Text

  /** An element of the returned list: a text piece or an integer port. */
  datatype Item = Str(s: string) | Num(n: int)

  /** `int(ary[1])` raised `ValueError` on this text. */
  datatype CfgError = BadPort(text: string)

  const DefaultPort := 389

  function Strs(parts: seq<string>): (items: seq<Item>)
    ensures |items| == |parts|
    ensures forall i :: 0 <= i < |parts| ==> items[i] == Str(parts[i])
  {
    if parts == [] then [] else [Str(parts[0])] + Strs(parts[1..])
  }

  /** The list `[host, port, <further pieces>..., dn]` built from `hostport`. */
  function HostPortDn(hostport: string, dn: string): (r: Result<seq<Item>, CfgError>)
    // without a colon: the whole text is the host, the port is 389
    ensures ':' !in hostport ==> r == Success([Str(hostport), Num(DefaultPort), Str(dn)])
    // with a colon: it fails exactly when the second piece is not an integer
    ensures ':' in hostport ==>
      var ary := Split(hostport, ':');
      && (r.Failure? <==> ParseInt(ary[1]).None?)
      && (r.Failure? ==> r.error == BadPort(ary[1]))
      && (r.Success? ==>
            && |r.value| == |ary| + 1
            && r.value[1] == Num(ParseInt(ary[1]).value)
            && r.value[|ary|] == Str(dn)
            && forall i :: 0 <= i < |ary| && i != 1 ==> r.value[i] == Str(ary[i]))
  {
    var ary := Split(hostport, ':');
    if |ary| < 2 then
      SplitWithout(hostport, ':');
      Success([Str(ary[0]), Num(DefaultPort), Str(dn)])
    else
      match ParseInt(ary[1])
      case None => Failure(BadPort(ary[1]))
      case Some(port) => Success([Str(ary[0]), Num(port)] + Strs(ary[2..]) + [Str(dn)])
  }

  /** A host written with its port in decimal gets exactly that port back. */
  lemma HostWithPort(host: string, port: nat, dn: string)
    requires ':' !in host
    ensures HostPortDn(host + ":" + Decimal(port), dn) == Success([Str(host), Num(port), Str(dn)])
  {
    var digits := Decimal(port);
    assert ':' !in digits by {
      assert !IsDigit(':');
    }
    var hp := host + ":" + digits;
    SplitAfter(host, digits, ':');
    assert hp[|host|] == ':';
    ParseDecimal(port);
    var ary := Split(hp, ':');
    assert ary == [host, digits];
    assert ary[2..] == [] && Strs(ary[2..]) == [];
    assert ParseInt(ary[1]) == Some(port);
    assert [Str(host), Num(port)] + Strs(ary[2..]) + [Str(dn)] == [Str(host), Num(port), Str(dn)];
  }

  lemma SplitAfter(host: string, rest: string, c: char)
    requires c !in host && c !in rest
    ensures Split(host + [c] + rest, c) == [host, rest]
  {
    SplitAtFirst(host, rest, c);
    SplitWithout(rest, c);
  }
}
