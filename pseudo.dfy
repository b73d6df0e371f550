/** `pseudolocalize` and its table `_chars`: every printable ASCII
    character is swapped for a look-alike, so that untranslated strings
    stand out.  The table maps characters to strings, as the source's does;
    every value is one character long. */
module Pseudo {

  import opened Base

  /** `_chars[c]`, or None where the lookup raises `KeyError`. The table
      covers exactly the printable ASCII characters, maps each to a single
      character and leaves none of them as it is. */
  function Chars(c: char): (r: Option<string>)
    ensures r.Some? <==> ' ' <= c <= '~'
    ensures r.Some? ==> |r.value| == 1 && r.value != [c]
  {
    match c
    case ' ' => Some("\U{2003}")
    case '!' => Some("\U{a1}")
    case '"' => Some("\U{2033}")
    case '#' => Some("\U{266f}")
    case '$' => Some("\U{20ac}")
    case '%' => Some("\U{2030}")
    case '&' => Some("\U{214b}")
    case '\'' => Some("\U{b4}")
    case ')' => Some("}")
    case '(' => Some("{")
    case '*' => Some("\U{204e}")
    case '+' => Some("\U{207a}")
    case ',' => Some("\U{60c}")
    case '-' => Some("\U{2010}")
    case '.' => Some("\U{b7}")
    case '/' => Some("\U{2044}")
    case '0' => Some("\U{24ea}")
    case '1' => Some("\U{2460}")
    case '2' => Some("\U{2461}")
    case '3' => Some("\U{2462}")
    case '4' => Some("\U{2463}")
    case '5' => Some("\U{2464}")
    case '6' => Some("\U{2465}")
    case '7' => Some("\U{2466}")
    case '8' => Some("\U{2467}")
    case '9' => Some("\U{2468}")
    case ':' => Some("\U{2236}")
    case ';' => Some("\U{204f}")
    case '<' => Some("\U{2264}")
    case '=' => Some("\U{2242}")
    case '>' => Some("\U{2265}")
    case '?' => Some("\U{bf}")
    case '@' => Some("\U{55e}")
    case 'A' => Some("\U{c5}")
    case 'B' => Some("\U{181}")
    case 'C' => Some("\U{c7}")
    case 'D' => Some("\U{d0}")
    case 'E' => Some("\U{c9}")
    case 'F' => Some("\U{191}")
    case 'G' => Some("\U{11c}")
    case 'H' => Some("\U{124}")
    case 'I' => Some("\U{ce}")
    case 'J' => Some("\U{134}")
    case 'K' => Some("\U{136}")
    case 'L' => Some("\U{13b}")
    case 'M' => Some("\U{1e40}")
    case 'N' => Some("\U{d1}")
    case 'O' => Some("\U{d6}")
    case 'P' => Some("\U{de}")
    case 'Q' => Some("\U{1ea}")
    case 'R' => Some("\U{154}")
    case 'S' => Some("\U{160}")
    case 'T' => Some("\U{162}")
    case 'U' => Some("\U{db}")
    case 'V' => Some("\U{1e7c}")
    case 'W' => Some("\U{174}")
    case 'X' => Some("\U{1e8a}")
    case 'Y' => Some("\U{dd}")
    case 'Z' => Some("\U{17d}")
    case '[' => Some("\U{2045}")
    case '\\' => Some("\U{2216}")
    case ']' => Some("\U{2046}")
    case '^' => Some("\U{2c4}")
    case '_' => Some("\U{203f}")
    case '`' => Some("\U{2035}")
    case 'a' => Some("\U{e5}")
    case 'b' => Some("\U{180}")
    case 'c' => Some("\U{e7}")
    case 'd' => Some("\U{f0}")
    case 'e' => Some("\U{e9}")
    case 'f' => Some("\U{192}")
    case 'g' => Some("\U{11d}")
    case 'h' => Some("\U{125}")
    case 'i' => Some("\U{ee}")
    case 'j' => Some("\U{135}")
    case 'k' => Some("\U{137}")
    case 'l' => Some("\U{13c}")
    case 'm' => Some("\U{271}")
    case 'n' => Some("\U{f1}")
    case 'o' => Some("\U{f6}")
    case 'p' => Some("\U{fe}")
    case 'q' => Some("\U{1eb}")
    case 'r' => Some("\U{155}")
    case 's' => Some("\U{161}")
    case 't' => Some("\U{163}")
    case 'u' => Some("\U{fb}")
    case 'v' => Some("\U{1e7d}")
    case 'w' => Some("\U{175}")
    case 'x' => Some("\U{1e8b}")
    case 'y' => Some("\U{fd}")
    case 'z' => Some("\U{17e}")
    case '{' => Some("(")
    case '}' => Some(")")
    case '|' => Some("\U{a6}")
    case '~' => Some("\U{2de}")
    case _ => None
  }

  /** What one character becomes: its look-alike from the table, or the
      character itself when the table has none. */
  function PseudoChar(c: char): (p: char)
    ensures ' ' <= c <= '~' <==> p != c
  {
    match Chars(c)
    case Some(v) => v[0]
    case None => c
  }

  /** `pseudolocalize`: the string is rebuilt one character at a time, each
      replaced by its table value or, on `KeyError`, kept. */
  method Pseudolocalize(s: string) returns (pseudo: string)
    ensures |pseudo| == |s|
    ensures forall i :: 0 <= i < |s| ==> pseudo[i] == PseudoChar(s[i])
  {
    pseudo := "";
    for i := 0 to |s|
      invariant |pseudo| == i
      invariant forall k :: 0 <= k < i ==> pseudo[k] == PseudoChar(s[k])
    {
      var ch := s[i];
      match Chars(ch) {
        case Some(v) =>
          pseudo := pseudo + v;
        case None =>
          pseudo := pseudo + [ch];
      }
    }
  }
}
