/** `escapeDNValue` and `escapeDNFiltValue`: LDAPv3 escaping of the eight
    characters that are special in a DN value.  Both run one `str.replace`
    pass per special character; each is proved equal to a one-pass,
    character-by-character reading (`Substitute`). */
module DnEscape {

  import opened Text

  /** The special characters, in the order both loops visit them. */
  const Specials: seq<char> := [' ', '"', '+', ',', ';', '<', '>', '=']

  /** What `escapeDNValue` writes for a special character: a backslash, then
      the character itself. */
  function ValueCode(c: char): string
  {
    ['\\', c]
  }

  /** What `escapeDNFiltValue` writes for a special character: a backslash,
      then `'%x' % ord(c)`. */
  function FiltCode(c: char): string
  {
    ['\\'] + LowerHex(c as nat)
  }

  /** `s` with each character in `done` replaced by `code` of it and every
      other character kept, in order. */
  function Substitute(s: string, code: char -> string, done: seq<char>): string
  {
    if s == [] then []
    else (if s[0] in done then code(s[0]) else [s[0]]) + Substitute(s[1..], code, done)
  }

  /** The escaped form of a DN value, read one character at a time. */
  function EscapedValue(s: string): string
  {
    Substitute(s, ValueCode, Specials)
  }

  /** The filter-escaped form of a DN value, read one character at a time. */
  function EscapedFilt(s: string): string
  {
    Substitute(s, FiltCode, Specials)
  }

  /** Number of special characters in `s`. */
  function SpecialCount(s: string): (n: nat)
    ensures n <= |s|
  {
    if s == [] then 0 else (if s[0] in Specials then 1 else 0) + SpecialCount(s[1..])
  }

  /** One `replace` pass for `c`, on a string whose characters in `done`
      have already been replaced, replaces `c` as well, provided no earlier
      replacement contains `c`. */
  lemma {:induction false} ReplaceStep(s: string, code: char -> string, done: seq<char>, c: char)
    requires c !in done
    requires forall d :: d in done ==> c !in code(d)
    ensures Replace(Substitute(s, code, done), c, code(c)) == Substitute(s, code, done + [c])
  {
    if s != [] {
      var head := if s[0] in done then code(s[0]) else [s[0]];
      ReplaceConcat(head, Substitute(s[1..], code, done), c, code(c));
      ReplaceStep(s[1..], code, done, c);
    }
  }

  /** Substituting nothing is the identity. */
  lemma {:induction false} SubstituteNothing(s: string, code: char -> string)
    ensures Substitute(s, code, []) == s
  {
    if s != [] {
      SubstituteNothing(s[1..], code);
    }
  }

  /** No replacement of an earlier special character contains a later one. */
  lemma ValueCodesDisjoint(i: nat)
    requires i < |Specials|
    ensures Specials[i] !in Specials[..i]
    ensures forall d :: d in Specials[..i] ==> Specials[i] !in ValueCode(d)
  {
  }

  lemma FiltCodesDisjoint(i: nat)
    requires i < |Specials|
    ensures Specials[i] !in Specials[..i]
    ensures forall d :: d in Specials[..i] ==> Specials[i] !in FiltCode(d)
  {
    forall d | d in Specials[..i]
      ensures Specials[i] !in FiltCode(d)
    {
      FiltCodeHasNoSpecials(d);
    }
  }

  /** The loop of `escapeDNValue`: one `replace` per special character. */
  method EscapeDNValue(dn: string) returns (r: string)
    ensures r == EscapedValue(dn)
  {
    r := dn;
    SubstituteNothing(dn, ValueCode);
    for i := 0 to |Specials|
      invariant r == Substitute(dn, ValueCode, Specials[..i])
    {
      var cc := Specials[i];
      ValueCodesDisjoint(i);
      ReplaceStep(dn, ValueCode, Specials[..i], cc);
      assert Specials[..i + 1] == Specials[..i] + [cc];
      r := Replace(r, cc, ValueCode(cc));
    }
    assert Specials[..|Specials|] == Specials;
  }

  /** The loop of `escapeDNFiltValue`: one `replace` per special character. */
  method EscapeDNFiltValue(dn: string) returns (r: string)
    ensures r == EscapedFilt(dn)
  {
    r := dn;
    SubstituteNothing(dn, FiltCode);
    for i := 0 to |Specials|
      invariant r == Substitute(dn, FiltCode, Specials[..i])
    {
      var cc := Specials[i];
      FiltCodesDisjoint(i);
      ReplaceStep(dn, FiltCode, Specials[..i], cc);
      assert Specials[..i + 1] == Specials[..i] + [cc];
      r := Replace(r, cc, FiltCode(cc));
    }
    assert Specials[..|Specials|] == Specials;
  }

  // ----- properties of the escaped forms -----

  /** Escaping inserts exactly one character per special character. */
  lemma {:induction false} EscapedValueLength(s: string)
    ensures |EscapedValue(s)| == |s| + SpecialCount(s)
  {
    if s != [] {
      EscapedValueLength(s[1..]);
    }
  }

  /** Removing a backslash that stands before a special character. */
  function UnescapeValue(s: string): string
  {
    if s == [] then []
    else if |s| >= 2 && s[0] == '\\' && s[1] in Specials then [s[1]] + UnescapeValue(s[2..])
    else [s[0]] + UnescapeValue(s[1..])
  }

  /** An escaped value never begins with a special character: every special
      character is preceded by its inserted backslash. */
  lemma EscapedValueHead(s: string)
    requires s != []
    ensures EscapedValue(s) != [] && EscapedValue(s)[0] !in Specials
  {
  }

  /** Escaping loses nothing: each special character is preceded by exactly
      one inserted backslash, which is all that unescaping removes. */
  lemma {:induction false} EscapedValueRoundTrip(s: string)
    ensures UnescapeValue(EscapedValue(s)) == s
  {
    if s != [] {
      var rest := EscapedValue(s[1..]);
      EscapedValueRoundTrip(s[1..]);
      if s[0] in Specials {
        assert EscapedValue(s) == ['\\', s[0]] + rest;
        assert (['\\', s[0]] + rest)[2..] == rest;
      } else {
        assert EscapedValue(s) == [s[0]] + rest;
        assert ([s[0]] + rest)[1..] == rest;
        if s[1..] != [] {
          EscapedValueHead(s[1..]);
        }
      }
    }
  }

  /** The filter codes of the eight special characters. */
  lemma FiltCodes()
    ensures FiltCode(' ') == "\\20" && FiltCode('"') == "\\22"
    ensures FiltCode('+') == "\\2b" && FiltCode(',') == "\\2c"
    ensures FiltCode(';') == "\\3b" && FiltCode('<') == "\\3c"
    ensures FiltCode('>') == "\\3e" && FiltCode('=') == "\\3d"
  {
    assert LowerHex(2) == "2" && LowerHex(3) == "3";
    assert LowerHex(0x22) == "22" && LowerHex(0x2b) == "2b" && LowerHex(0x2c) == "2c";
    assert LowerHex(0x3b) == "3b" && LowerHex(0x3c) == "3c";
    assert LowerHex(0x3e) == "3e" && LowerHex(0x3d) == "3d";
  }

  /** A filter code is a backslash and hexadecimal digits: no special character. */
  lemma FiltCodeHasNoSpecials(c: char)
    ensures forall e :: e in FiltCode(c) ==> e !in Specials
  {
    var h := LowerHex(c as nat);
    forall e | e in FiltCode(c)
      ensures e !in Specials
    {
      if e != '\\' {
        assert e in h;
      }
    }
  }

  /** A filter-escaped value contains none of the special characters. */
  lemma {:induction false} EscapedFiltHasNoSpecials(s: string)
    ensures forall c :: c in EscapedFilt(s) ==> c !in Specials
  {
    if s != [] {
      EscapedFiltHasNoSpecials(s[1..]);
      if s[0] in Specials {
        FiltCodeHasNoSpecials(s[0]);
      }
    }
  }

  /** Filter-escaping inserts exactly two characters per special character. */
  lemma {:induction false} EscapedFiltLength(s: string)
    ensures |EscapedFilt(s)| == |s| + 2 * SpecialCount(s)
  {
    if s != [] {
      EscapedFiltLength(s[1..]);
      if s[0] in Specials {
        FiltCodes();
      }
    }
  }
}
