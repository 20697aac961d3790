/**
 * The pieces of C syntax the codec writes and reads: byte values, hexadecimal
 * digits, the `0xHH` byte literal and the opening of an array declaration
 * `const unsigned char <name>[] = {`.
 */
module CSyntax {

  /** An element of a Python `bytes` object. */
  type byte = b: int | 0 <= b < 256

  /** `[0-9A-Fa-f]` */
  predicate IsHexDigit(c: char) {
    '0' <= c <= '9' || 'A' <= c <= 'F' || 'a' <= c <= 'f'
  }

  /** `[0-9A-F]`, the digits the `02X` format emits. */
  predicate IsUpperHexDigit(c: char) {
    '0' <= c <= '9' || 'A' <= c <= 'F'
  }

  /** The value of one hexadecimal digit, in either case (as `int(_, 16)` reads it). */
  function HexDigitValue(c: char): (v: nat)
    requires IsHexDigit(c)
    ensures v < 16
    ensures '0' <= c <= '9' ==> v < 10
    ensures !('0' <= c <= '9') ==> 10 <= v
  {
    if '0' <= c <= '9' then c as int - '0' as int
    else if 'A' <= c <= 'F' then c as int - 'A' as int + 10
    else c as int - 'a' as int + 10
  }

  /** A lower-case digit has the value of its upper-case counterpart. */
  lemma HexDigitCaseInsensitive(c: char)
    requires 'a' <= c <= 'f'
    ensures IsHexDigit((c as int - 32) as char)
    ensures HexDigitValue(c) == HexDigitValue((c as int - 32) as char)
  {
  }

  /** The upper-case digit for a value below 16. */
  function UpperHexDigit(v: nat): (c: char)
    requires v < 16
    ensures IsUpperHexDigit(c) && IsHexDigit(c)
    ensures HexDigitValue(c) == v
  {
    if v < 10 then ('0' as int + v) as char else ('A' as int + v - 10) as char
  }

  /**
   * `f"0x{b:02X}"`: the characters `0x` and then exactly two upper-case
   * hexadecimal digits, zero-padded, whose value is the byte.
   */
  function Token(b: byte): (t: string)
    ensures |t| == 4 && t[0] == '0' && t[1] == 'x'
    ensures IsUpperHexDigit(t[2]) && IsUpperHexDigit(t[3])
    ensures IsHexDigit(t[2]) && IsHexDigit(t[3])
    ensures HexDigitValue(t[2]) * 16 + HexDigitValue(t[3]) == b
  {
    "0x" + [UpperHexDigit(b / 16), UpperHexDigit(b % 16)]
  }

  /** `[f"0x{b:02X}" for b in data]` */
  function Tokens(data: seq<byte>): seq<string> {
    seq(|data|, k requires 0 <= k < |data| => Token(data[k]))
  }

  /** A rendered token contains no `}` and no `c`. */
  lemma TokenAlphabet(b: byte)
    ensures '}' !in Token(b) && 'c' !in Token(b)
  {
    var t := Token(b);
    forall i | 0 <= i < 4 ensures t[i] != '}' && t[i] != 'c' {
    }
  }

  /** `[A-Za-z0-9_]` */
  predicate IsIdentifierChar(c: char) {
    'a' <= c <= 'z' || 'A' <= c <= 'Z' || '0' <= c <= '9' || c == '_'
  }

  /**
   * An array name made of identifier characters only. Such a name means
   * itself when it is pasted into a regular expression.
   */
  predicate IsIdentifierName(name: string) {
    forall i :: 0 <= i < |name| ==> IsIdentifierChar(name[i])
  }

  /** The text that opens an array declaration, up to and including `{`. */
  function DeclOpen(name: string): string {
    "const unsigned char " + name + "[] = {"
  }
}
