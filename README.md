# lib389 utility helpers, modelled in Dafny

This project models the self-contained string, path and arithmetic helpers
of `lib389`, the Python library that 389 Directory Server's administration
and test tooling is built on (`src/lib389/lib389/utils.py`):

- LDAPv3 escaping of DN values, plain (`escapeDNValue`) and for search
  filters (`escapeDNFiltValue`);
- the choice of install directories (`get_sbin_dir`, `get_bin_dir`,
  `get_data_dir`);
- the DNS domain of a host and the default directory suffix derived from it
  (`getdomainname`, `getdefaultsuffix`);
- the `host[:port]` split of the configuration directory's URL in
  `getoldcfgdsinfo` and `getnewcfgdsinfo`;
- the host, ports, server id and replica id of a test instance
  (`generate_ds_params`);
- pseudolocalisation of strings (`pseudolocalize` with its `_chars` table);
- the stack-trace scan of a valgrind results file (`valgrind_check_file`).

Files, one module each: `base.dfy` (Option, Result), `text.dfy` (the Python
string operations the helpers use: one-character `replace` and `split`,
`split()` on whitespace, decimal and `%x` formatting, `int()`),
`dn_escape.dfy`, `install_paths.dfy`, `domain.dfy` (with `find`, which only
`getdomainname` uses), `cfgds_info.dfy`, `ds_params.dfy`, `pseudo.dfy`,
`valgrind_scan.dfy`.

Form of the model. The helpers that are expressions (path choice, domain,
suffix, host:port split) are functions. The ones that work step by step are
methods with loops, each proved against a specification function:
the two escapes run one `replace` pass per special character and are proved
equal to a one-pass, character-by-character substitution; `pseudolocalize`
appends one table value per character and is proved to map every position;
`valgrind_check_file` keeps `matched_count` and `found` over the lines, with
its inner `break` and its reset, and is proved equal to a recursive `Scan`,
which in turn is proved to accept exactly when some complete stack trace has
as many matching lines as there are patterns. `generate_ds_params` computes
its port base through the same `if`/`elif` chain as the source and returns
its dict as a record.

Parameters in place of what the source calls out to: the fully qualified
host name (`socket.getfqdn`), the `hostport` and `dn` of the parsed
`LDAPUrl`, the lines of the valgrind results file, `re.search` (a function
`matches(pattern, line)`), and the values of `LOCALHOST` and
`CONSUMER_REPLICAID` (`lib389/_constants.py` is not part of this model).
Python's `None` default for `sroot` and `prefix` is `Option.None`, a Dafny
default parameter value like the role's default `ReplicaRole.STANDALONE` in
`GenerateDsParams`; a Python exception is a `Result.Failure`. Strings follow Python 3 `str`
semantics: a string is a sequence of code points and whitespace is the
Unicode set; the Python 2 byte-string behaviour (ASCII-only whitespace in
`split()`, `pseudolocalize` on non-ASCII bytes) is not modelled.

The password-policy and password-storage-scheme behaviour that the
repository's test suites exercise is implemented in the native server, whose
code is not part of this model.

## Model

| member | source | states |
|---|---|---|
| `DnEscape.EscapeDNValue` | src/lib389/lib389/utils.py:211-218 | the eight `replace` passes give the one-pass escape: every special character preceded by a backslash, every other character kept in order |
| `DnEscape.ReplaceStep` | src/lib389/lib389/utils.py:216-217 | a `replace` pass for a character not produced by any earlier pass extends the set of escaped characters by that one, so later passes never re-escape earlier insertions |
| `DnEscape.EscapedValueLength` | src/lib389/lib389/utils.py:211-218 | the escaped value is longer than the input by exactly the number of special characters |
| `DnEscape.EscapedValueRoundTrip` | src/lib389/lib389/utils.py:211-218 | dropping each backslash that precedes a special character gives back the input: escaping is injective and inserts exactly one backslash per special character |
| `DnEscape.EscapeDNFiltValue` | src/lib389/lib389/utils.py:221-226 | the eight `replace` passes give the one-pass filter escape: each special character becomes a backslash and its lower-case hex code |
| `DnEscape.FiltCodes` | src/lib389/lib389/utils.py:224-225 | the codes are `\20 \22 \2b \2c \3b \3c \3e \3d` for space, `"`, `+`, `,`, `;`, `<`, `>`, `=` |
| `DnEscape.EscapedFiltHasNoSpecials` | src/lib389/lib389/utils.py:221-226 | a filter-escaped value contains none of the eight special characters |
| `DnEscape.EscapedFiltLength` | src/lib389/lib389/utils.py:221-226 | the filter-escaped value is longer than the input by twice the number of special characters |
| `InstallPaths.SbinDir` | src/lib389/lib389/utils.py:246-252 | a given `sroot` yields `<sroot>/bin/slapd/admin/bin`; else a prefix other than empty and `/` yields `<prefix>/sbin`; else `/usr/sbin` |
| `InstallPaths.BinDir` | src/lib389/lib389/utils.py:255-261 | the same three cases with `<prefix>/bin` and `/usr/bin` |
| `InstallPaths.DataDir` | src/lib389/lib389/utils.py:264-268 | a relocating prefix yields `<prefix>/share/dirsrv/data`, otherwise `/usr/share/dirsrv/data` |
| `InstallPaths.ServerRootWins` | src/lib389/lib389/utils.py:246-261 | with a server root the prefix is ignored and the sbin and bin directories coincide |
| `InstallPaths.RootPrefixIsDefault` | src/lib389/lib389/utils.py:246-268 | a missing, empty or `/` prefix gives the three system defaults |
| `InstallPaths.PrefixKept` | src/lib389/lib389/utils.py:246-268 | different relocating prefixes give different directories |
| `Domain.DomainName` | src/lib389/lib389/utils.py:517-525 | the result is what follows the first dot of the host name, or empty when there is no dot |
| `Domain.DomainNameLabels` | src/lib389/lib389/utils.py:517-525 | the domain is the host name's labels after the first, joined by dots |
| `Domain.DefaultSuffix` | src/lib389/lib389/utils.py:528-533 | `dc=` followed by the domain's labels joined by `,dc=`, or `dc=localdomain` when the domain is empty |
| `Domain.NoDotNoDomain` | src/lib389/lib389/utils.py:517-533 | a host name without a dot gets `dc=localdomain` |
| `Domain.ThreeLabelSuffix` | src/lib389/lib389/utils.py:528-533 | a host in `a.b.c` gets `dc=a,dc=b,dc=c` |
| `Text.Replace` | src/lib389/lib389/utils.py:217 | `str.replace` with a one-character pattern (also at lines 225 and 531) leaves a string without the pattern unchanged, and its result holds only characters of the input other than the pattern and characters of the replacement |
| `Text.Split` | src/lib389/lib389/utils.py:643 | `str.split(':')` (also at line 666) gives one more piece than there are separators, none of them holding the separator |
| `Text.JoinSplit` | src/lib389/lib389/utils.py:643 | joining the pieces of a split with the separator gives back the input |
| `Text.ParseInt` | src/lib389/lib389/utils.py:647 | `int()` (also at line 670) succeeds exactly on an optional sign followed by one or more digits |
| `Text.LowerHex` | src/lib389/lib389/utils.py:225 | `'%x'` yields a non-empty string of lower-case hexadecimal digits |
| `Text.LowerHexValue` | src/lib389/lib389/utils.py:225 | the digits `'%x' % n` prints denote `n` in base sixteen |
| `Text.Decimal` | src/lib389/lib389/utils.py:884 | formatting an instance number yields a non-empty string of decimal digits |
| `Text.DecimalInjective` | src/lib389/lib389/utils.py:884 | distinct numbers are formatted differently |
| `Domain.Find` | src/lib389/lib389/utils.py:519 | `str.find('.')` is -1 when there is no dot, and otherwise the index of the first dot |
| `Text.ReplaceIsJoinSplit` | src/lib389/lib389/utils.py:531 | replacing every `.` by `,dc=` equals splitting at `.` and joining with `,dc=` |
| `CfgDsInfo.HostPortDn` | src/lib389/lib389/utils.py:643-648 | without `:` the list is `[host, 389, dn]`; with `:` it fails exactly when the second piece is not an integer, and otherwise holds every piece in order with the second converted, then the DN |
| `CfgDsInfo.HostWithPort` | src/lib389/lib389/utils.py:666-671 | `host:<decimal port>` gives back `[host, port, dn]` |
| `Text.ParseDecimal` | src/lib389/lib389/utils.py:647 | `int()` reads back the decimal numeral of every natural number |
| `DsParams.GenerateDsParams` | src/lib389/lib389/utils.py:859-891 | an instance number outside 1..99 fails first, then a value that is not a role; otherwise host is `LOCALHOST`, port is the role's block plus the instance number, secure port is port + 24700, server id is the lower-case role name and the decimal instance number, replica id is the instance number exactly for a master and `CONSUMER_REPLICAID` otherwise |
| `DsParams.PortDecodes` | src/lib389/lib389/utils.py:867-886 | a port's hundreds are 389 plus the role's block and its last two digits are the instance number |
| `DsParams.PortsDistinct` | src/lib389/lib389/utils.py:867-887 | distinct (role, instance) pairs never share a port or a secure port, and no port is another instance's secure port |
| `DsParams.PortsInRange` | src/lib389/lib389/utils.py:886-887 | ports lie in 38901..39299 and secure ports in 63601..63999, all valid TCP ports |
| `DsParams.ServerIdsDistinct` | src/lib389/lib389/utils.py:884 | distinct (role, instance) pairs get distinct server ids |
| `DsParams.RoleName` | src/lib389/lib389/utils.py:884 | `role.name.lower()` is a non-empty run of lower-case letters |
| `Pseudo.Chars` | src/lib389/lib389/utils.py:80-176 | `_chars` has an entry for exactly the printable ASCII characters; every value is one character long and differs from its key |
| `Pseudo.PseudoChar` | src/lib389/lib389/utils.py:983-987 | a character is changed exactly when it is printable ASCII |
| `Pseudo.Pseudolocalize` | src/lib389/lib389/utils.py:981-988 | the output has the input's length, and each position holds the table value of the input character there, or that character when the table has none |
| `Text.IsSpace` | src/lib389/lib389/utils.py:469 | exactly the characters Python 3's `str.split()` treats as whitespace |
| `Text.Words` | src/lib389/lib389/utils.py:469 | `line.split()` yields non-empty tokens free of whitespace, no more of them than characters, the first starting with the line's first character when that is not whitespace |
| `Text.WordsKeepCharacters` | src/lib389/lib389/utils.py:469 | the tokens laid end to end are the line's non-whitespace characters in order |
| `Text.NoWords` | src/lib389/lib389/utils.py:469 | a line splits into no tokens exactly when it is all whitespace |
| `Text.SingleToken` | src/lib389/lib389/utils.py:469 | `len(line.split()) == 1` holds exactly when the line has a single run of non-whitespace characters with only whitespace around it, and that run is the token |
| `ValgrindScan.ValgrindCheckFile` | src/lib389/lib389/utils.py:458-480 | the loop's result equals the recursive scan, and is true exactly when some complete stack trace has as many matching lines as there are patterns |
| `ValgrindScan.ScanFindsTrace` | src/lib389/lib389/utils.py:458-480 | the scan, with its reset at each closing line, accepts exactly when some complete trace's count of matching lines equals the pattern count |
| `ValgrindScan.ShortTracesNeverMatch` | src/lib389/lib389/utils.py:463-467 | since each line adds at most one to the count, traces shorter than the pattern list never match |
| `ValgrindScan.RepeatedPatternCounts` | src/lib389/lib389/utils.py:463-475 | the count is of matching lines, not of matched patterns: a trace with two lines matched by `p` is reported for `[p, q]` although `q` matches nothing |
| `ValgrindScan.NoPatterns` | src/lib389/lib389/utils.py:459-475 | with no patterns the first line holding one token is already a match |

## Left out

- Valgrind process and file handling (`valgrind_enable`, `valgrind_disable`, `valgrind_get_results_file`): copying binaries, `setenforce`, shelling out to `ps`.
- `ValgrindScan.ValgrindCheckFile`: does not model the `assert False` on an empty file name, the newline stripping of the name, opening and closing the file, or the `print` on a match; the file is its sequence of lines.
- `ValgrindScan.AnyMatch`: `re.search` is the parameter `matches`; regular-expression matching itself is not modelled.
- Socket and network code (`isLocalHost`, `socket_check_open`, `getfqdn`, `update_newhost_with_fqdn`): I/O; the host name is an input of `DomainName` and `DefaultSuffix`.
- LDAP-connection code (`getcfgdsuserdn`, `getserverroot`, `getadminport`): needs a live server.
- python-ldap DN parsing (`is_a_dn`, `normalizeDN`, `suffixfilt`): `ldap.dn.str2dn` and `ldap.explode_dn` are a foreign library.
- Filesystem, environment and clock lookups (`get_plugin_dir`, `get_server_user`, `update_admin_domain`, the file reading of `getoldcfgdsinfo`, `getcfgdsinfo`, `get_ds_version`, `ds_is_older`, `ds_is_newer`, `getDateTime`).
- `LDAPUrl` parsing in `getoldcfgdsinfo` and `getnewcfgdsinfo`: its `hostport` and `dn` are inputs of `CfgDsInfo.HostPortDn`.
- Python type and encoding adapters (`ensure_bytes`, `ensure_str`, `ensure_int`, the list variants, `ensure_dict_str`), `assert_c`, `static_var`, `searches`, `formatInfData`: runtime types, UTF-8 decoding and plain formatting with no stated invariant.
- `Text.ParseInt`: models `int()` on an optional sign and ASCII digits only; the surrounding whitespace, underscores between digits and non-ASCII digits that Python also accepts are not modelled (such input is reported as an error).
- `DsParams.GenerateDsParams`: the instance number is an integer; Python's acceptance of other numeric types in `range` membership is not modelled. Any role argument that is not one of the four `ReplicaRole` members is `RoleArg.Other`.
- Python 2 string semantics (the `six` import and the `MAJOR <= 2` branch): byte strings split on ASCII whitespace only and `pseudolocalize` fails on non-ASCII bytes there; the model follows Python 3 `str`.
- `Pseudo.Chars`: `_chars` is modelled as a lookup function with one case per entry rather than a dictionary value.
- `DsParams.GenerateDsParams`: `localhost` and `consumerReplicaId` follow the defaulted role, so a call that leaves the role out names them.
- The password-policy and storage-scheme tests, the `memberof` CLI wrappers and the gdb extension: they drive or inspect the native server, whose code is not part of this model.
