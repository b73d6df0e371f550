/** `get_sbin_dir`, `get_bin_dir` and `get_data_dir`: where an installation's
    programs and shared data live, chosen from the server root `sroot`, the
    installation `prefix`, or the system default.  Python's `None` default
    is `None` here; Python truthiness of an argument is `Given`. */
module InstallPaths {

  import opened Base

  /** `if x:` on an optional string: present and not empty. */
  predicate Given(x: Option<string>)
  {
    x.Some? && x.value != ""
  }

  /** `prefix and prefix != '/'`: a prefix that relocates the installation. */
  predicate Relocating(prefix: Option<string>)
  {
    Given(prefix) && prefix.value != "/"
  }

  const AdminBin := "/bin/slapd/admin/bin"

  function SbinDir(sroot: Option<string> := None, prefix: Option<string> := None): (r: string)
    ensures Given(sroot) ==> r == sroot.value + AdminBin
    ensures !Given(sroot) && Relocating(prefix) ==> r == prefix.value + "/sbin"
    ensures !Given(sroot) && !Relocating(prefix) ==> r == "/usr/sbin"
  {
    if Given(sroot) then sroot.value + AdminBin
    else if Relocating(prefix) then prefix.value + "/sbin"
    else "/usr/sbin"
  }

  function BinDir(sroot: Option<string> := None, prefix: Option<string> := None): (r: string)
    ensures Given(sroot) ==> r == sroot.value + AdminBin
    ensures !Given(sroot) && Relocating(prefix) ==> r == prefix.value + "/bin"
    ensures !Given(sroot) && !Relocating(prefix) ==> r == "/usr/bin"
  {
    if Given(sroot) then sroot.value + AdminBin
    else if Relocating(prefix) then prefix.value + "/bin"
    else "/usr/bin"
  }

  function DataDir(prefix: Option<string> := None): (r: string)
    ensures Relocating(prefix) ==> r == prefix.value + "/share/dirsrv/data"
    ensures !Relocating(prefix) ==> r == "/usr/share/dirsrv/data"
  {
    if Relocating(prefix) then prefix.value + "/share/dirsrv/data"
    else "/usr/share/dirsrv/data"
  }

  /** A server root wins over any prefix, and then the sbin and bin
      directories coincide. */
  lemma ServerRootWins(sroot: Option<string>, p: Option<string>, q: Option<string>)
    requires Given(sroot)
    ensures SbinDir(sroot, p) == SbinDir(sroot, q) == BinDir(sroot, p) == BinDir(sroot, q)
  {
  }

  /** Without a server root, a missing prefix, an empty prefix and the prefix
      "/" all give the system default. */
  lemma RootPrefixIsDefault(sroot: Option<string>, prefix: Option<string>)
    requires !Given(sroot)
    requires prefix == None || prefix == Some("") || prefix == Some("/")
    ensures SbinDir(sroot, prefix) == "/usr/sbin"
    ensures BinDir(sroot, prefix) == "/usr/bin"
    ensures DataDir(prefix) == "/usr/share/dirsrv/data"
  {
  }

  /** A relocating prefix is kept as the leading part of every directory,
      so different prefixes give different directories. */
  lemma PrefixKept(sroot: Option<string>, p: Option<string>, q: Option<string>)
    requires !Given(sroot) && Relocating(p) && Relocating(q) && p != q
    ensures SbinDir(sroot, p) != SbinDir(sroot, q)
    ensures BinDir(sroot, p) != BinDir(sroot, q)
    ensures DataDir(p) != DataDir(q)
  {
    var a, b := p.value, q.value;
    SuffixKeepsDistinct(a, b, "/sbin");
    SuffixKeepsDistinct(a, b, "/bin");
    SuffixKeepsDistinct(a, b, "/share/dirsrv/data");
  }

  lemma SuffixKeepsDistinct(a: string, b: string, t: string)
    requires a != b
    ensures a + t != b + t
  {
    if |a| == |b| {
      assert (a + t)[..|a|] == a;
      assert (b + t)[..|b|] == b;
    }
  }
}
