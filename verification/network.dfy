/** Interface and address selection of src/network.rs. Addresses are kept
    as the text `IpAddr::to_string` gives them; reading the host's
    interfaces (`datalink::interfaces`) is replaced by a parameter. */
module Network {
  import opened Wrappers
  import opened Strings

  datatype IpAddr = V4(text: string) | V6(text: string)

  /** One interface as the operating system reports it. */
  datatype Interface = Interface(name: string, ips: seq<IpAddr>)

  /** `LocalInterface`: an address and the name of its interface. */
  datatype LocalInterface = LocalInterface(ip: IpAddr, name: Option<string>)

  datatype LocalIpAddresses = LocalIpAddresses(ipv4Addrs: seq<LocalInterface>, ipv6Addrs: seq<LocalInterface>)

  /** `get_local_ips`: every address of every interface, split by version,
      in the order the interfaces and their addresses are listed. */
  function GetLocalIps(ifaces: seq<Interface>): (r: LocalIpAddresses)
    ensures forall i :: 0 <= i < |r.ipv4Addrs| ==> r.ipv4Addrs[i].ip.V4? && r.ipv4Addrs[i].name.Some?
    ensures forall i :: 0 <= i < |r.ipv6Addrs| ==> r.ipv6Addrs[i].ip.V6? && r.ipv6Addrs[i].name.Some?
  {
    if |ifaces| == 0 then LocalIpAddresses([], [])
    else
      var first := Split(ifaces[0].name, ifaces[0].ips);
      var rest := GetLocalIps(ifaces[1..]);
      LocalIpAddresses(first.ipv4Addrs + rest.ipv4Addrs, first.ipv6Addrs + rest.ipv6Addrs)
  }

  /** The addresses of one interface, split by version. */
  function Split(name: string, ips: seq<IpAddr>): (r: LocalIpAddresses)
    ensures forall i :: 0 <= i < |r.ipv4Addrs| ==> r.ipv4Addrs[i].ip.V4? && r.ipv4Addrs[i].name == Some(name)
    ensures forall i :: 0 <= i < |r.ipv6Addrs| ==> r.ipv6Addrs[i].ip.V6? && r.ipv6Addrs[i].name == Some(name)
  {
    if |ips| == 0 then LocalIpAddresses([], [])
    else
      var rest := Split(name, ips[1..]);
      match ips[0]
      case V4(_) => LocalIpAddresses([LocalInterface(ips[0], Some(name))] + rest.ipv4Addrs, rest.ipv6Addrs)
      case V6(_) => LocalIpAddresses(rest.ipv4Addrs, [LocalInterface(ips[0], Some(name))] + rest.ipv6Addrs)
  }

  /** An entry is listed exactly when its address belongs to the named
      interface, in the list of its own version. */
  lemma {:induction false} SplitMembers(name: string, ips: seq<IpAddr>, e: LocalInterface)
    ensures e in Split(name, ips).ipv4Addrs <==> e.ip.V4? && e.ip in ips && e.name == Some(name)
    ensures e in Split(name, ips).ipv6Addrs <==> e.ip.V6? && e.ip in ips && e.name == Some(name)
  {
    if |ips| > 0 {
      SplitMembers(name, ips[1..], e);
      assert ips == [ips[0]] + ips[1..];
    }
  }

  lemma {:induction false} GetLocalIpsMembers(ifaces: seq<Interface>, e: LocalInterface)
    ensures e in GetLocalIps(ifaces).ipv4Addrs <==>
              e.ip.V4? && exists f :: f in ifaces && e.ip in f.ips && e.name == Some(f.name)
    ensures e in GetLocalIps(ifaces).ipv6Addrs <==>
              e.ip.V6? && exists f :: f in ifaces && e.ip in f.ips && e.name == Some(f.name)
  {
    if |ifaces| > 0 {
      SplitMembers(ifaces[0].name, ifaces[0].ips, e);
      GetLocalIpsMembers(ifaces[1..], e);
      assert ifaces == [ifaces[0]] + ifaces[1..];
      assert forall f :: f in ifaces <==> f == ifaces[0] || f in ifaces[1..];
    }
  }

  /** `ipstr_starts_with`: without a prefix every address passes; with one,
      the address text must start with it. */
  predicate IpStrStartsWith(ip: IpAddr, startingOctets: Option<string>)
  {
    match startingOctets
    case None => true
    case Some(start) => StartsWith(ip.text, start)
  }

  /** The interface-name test of `get_matching_ipstr`: no name asked for,
      the same name, or an entry with no name at all. */
  predicate NameMatches(ip: LocalInterface, iname: Option<string>)
  {
    iname.None? || ip.name == iname || ip.name.None?
  }

  predicate Selected(ip: LocalInterface, iname: Option<string>, startingOctets: Option<string>)
  {
    NameMatches(ip, iname) && IpStrStartsWith(ip.ip, startingOctets)
  }

  /** `get_matching_ipstr`: the text of the selected addresses, in input
      order. */
  function GetMatchingIpStr(ips: seq<LocalInterface>, iname: Option<string>, startingOctets: Option<string>): (r: seq<string>)
    ensures |r| <= |ips|
    ensures forall s :: s in r ==> exists ip :: ip in ips && Selected(ip, iname, startingOctets) && ip.ip.text == s
  {
    if |ips| == 0 then []
    else
      var rest := GetMatchingIpStr(ips[1..], iname, startingOctets);
      if Selected(ips[0], iname, startingOctets) then [ips[0].ip.text] + rest else rest
  }

  /** `r` can be obtained from `s` by deleting elements. */
  predicate IsSubsequence<T(==)>(r: seq<T>, s: seq<T>)
    decreases |s|
  {
    |r| == 0 || (|s| > 0 && ((r[0] == s[0] && IsSubsequence(r[1..], s[1..])) || IsSubsequence(r, s[1..])))
  }

  function Texts(ips: seq<LocalInterface>): (r: seq<string>)
    ensures |r| == |ips| && forall i :: 0 <= i < |ips| ==> r[i] == ips[i].ip.text
  {
    if |ips| == 0 then [] else [ips[0].ip.text] + Texts(ips[1..])
  }

  /** The output keeps the input's order: it is a subsequence of the input
      addresses. */
  lemma {:induction false} MatchingIsSubsequence(ips: seq<LocalInterface>, iname: Option<string>, startingOctets: Option<string>)
    ensures IsSubsequence(GetMatchingIpStr(ips, iname, startingOctets), Texts(ips))
  {
    if |ips| > 0 {
      MatchingIsSubsequence(ips[1..], iname, startingOctets);
      var rest := GetMatchingIpStr(ips[1..], iname, startingOctets);
      assert Texts(ips)[1..] == Texts(ips[1..]);
      if !Selected(ips[0], iname, startingOctets) && |rest| > 0 {
        assert IsSubsequence(rest, Texts(ips)[1..]);
      }
    }
  }

  /** An address is in the output exactly when some entry with that text
      passes both tests. */
  lemma {:induction false} MatchingMembers(ips: seq<LocalInterface>, iname: Option<string>, startingOctets: Option<string>, s: string)
    ensures s in GetMatchingIpStr(ips, iname, startingOctets) <==>
              exists i :: 0 <= i < |ips| && ips[i].ip.text == s && Selected(ips[i], iname, startingOctets)
  {
    if |ips| > 0 {
      MatchingMembers(ips[1..], iname, startingOctets, s);
      if s in GetMatchingIpStr(ips[1..], iname, startingOctets) {
        var i :| 0 <= i < |ips[1..]| && ips[1..][i].ip.text == s && Selected(ips[1..][i], iname, startingOctets);
        assert ips[i + 1] == ips[1..][i];
      }
      if exists i :: 0 <= i < |ips| && ips[i].ip.text == s && Selected(ips[i], iname, startingOctets) {
        var i :| 0 <= i < |ips| && ips[i].ip.text == s && Selected(ips[i], iname, startingOctets);
        if i > 0 {
          assert ips[1..][i - 1] == ips[i];
        }
      }
    }
  }

  /** The elements of `s` satisfying `p`, in order. */
  function Filter<T>(p: T -> bool, s: seq<T>): (r: seq<T>)
    ensures |r| <= |s|
    ensures forall i :: 0 <= i < |r| ==> p(r[i]) && r[i] in s
  {
    if |s| == 0 then [] else (if p(s[0]) then [s[0]] else []) + Filter(p, s[1..])
  }

  /** The output is exactly the texts of the selected entries: each
      selected entry contributes its text once, duplicates included. */
  lemma {:induction false} MatchingIsFilter(ips: seq<LocalInterface>, iname: Option<string>, startingOctets: Option<string>)
    ensures GetMatchingIpStr(ips, iname, startingOctets) ==
            Texts(Filter(ip => Selected(ip, iname, startingOctets), ips))
  {
    if |ips| > 0 {
      MatchingIsFilter(ips[1..], iname, startingOctets);
      var p := ip => Selected(ip, iname, startingOctets);
      var rest := Filter(p, ips[1..]);
      if p(ips[0]) {
        assert Filter(p, ips) == [ips[0]] + rest;
        assert Texts([ips[0]] + rest)[1..] == Texts(rest);
        assert ([ips[0]] + rest)[1..] == rest;
      } else {
        assert Filter(p, ips) == rest;
      }
    }
  }

  /** With neither an interface name nor a prefix, every address is
      returned, in order. */
  lemma {:induction false} MatchingEverything(ips: seq<LocalInterface>)
    ensures GetMatchingIpStr(ips, None, None) == Texts(ips)
  {
    if |ips| > 0 {
      MatchingEverything(ips[1..]);
    }
  }
}
