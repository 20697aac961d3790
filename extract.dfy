/**
 * The text-processing part of `extract_c_array_data(file_path, array_name)`.
 * The extractor finds the first declaration
 * `const unsigned char <name>[] = {<body>};` and reads every `0xHH` literal
 * of its body as a byte.
 *
 * The source does this with two regular expressions. `DeclarationAt` states
 * what the first one, `const unsigned char NAME\[\] = \{([^}]+)\};`, accepts
 * at a position, and `MatchAt` / `Search` are scanners proved to agree with
 * it. `ScanHex` is the left-to-right, non-overlapping scan of `findall` with
 * `0x[0-9A-Fa-f]{2}`.
 */
module Extraction {
  import opened Wrappers
  import opened CSyntax

  /** The `ValueError` raised when no declaration matches. */
  datatype Error = NotFound(name: string)

  /** The position and the captured body of a match. */
  datatype Found = Found(pos: nat, body: string)

  /**
   * The declaration pattern matches at `p` with `body` as its group: the
   * opening text, then a non-empty run of characters other than `}`, then
   * `};`. Since the run cannot hold `}`, it ends at the first `}` after `{`.
   */
  ghost predicate DeclarationAt(s: string, name: string, p: nat, body: string) {
    var q := p + |DeclOpen(name)|;
    && q + |body| + 2 <= |s|
    && s[p .. q] == DeclOpen(name)
    && s[q .. q + |body|] == body
    && body != []
    && '}' !in body
    && s[q + |body|] == '}'
    && s[q + |body| + 1] == ';'
  }

  /** At one position the declaration pattern captures at most one body. */
  lemma DeclarationBodyUnique(s: string, name: string, p: nat, b1: string, b2: string)
    requires DeclarationAt(s, name, p, b1) && DeclarationAt(s, name, p, b2)
    ensures b1 == b2
  {
  }

  /** The index of the first `c` at or after `from`, or `|s|` when there is none. */
  function FirstIndexOf(s: string, from: nat, c: char): (k: nat)
    requires from <= |s|
    ensures from <= k <= |s|
    ensures forall i :: from <= i < k ==> s[i] != c
    ensures k < |s| ==> s[k] == c
    decreases |s| - from
  {
    if from == |s| || s[from] == c then from else FirstIndexOf(s, from + 1, c)
  }

  /** One attempt of the declaration pattern at position `p`: the body, or nothing. */
  function MatchAt(s: string, name: string, p: nat): (r: Option<string>)
    requires p <= |s|
    ensures r.Some? ==> DeclarationAt(s, name, p, r.value)
    ensures r.None? ==> forall body :: !DeclarationAt(s, name, p, body)
  {
    var q := p + |DeclOpen(name)|;
    if q <= |s| && s[p .. q] == DeclOpen(name) then
      var k := FirstIndexOf(s, q, '}');
      if q < k && k + 1 < |s| && s[k + 1] == ';' then
        assert '}' !in s[q .. k] by {
          forall i | 0 <= i < k - q ensures s[q .. k][i] != '}' {
            assert s[q .. k][i] == s[q + i];
          }
        }
        Some(s[q .. k])
      else
        None
    else
      None
  }

  /**
   * `re.search`: the leftmost position at or after `from` where the
   * declaration pattern matches, with its body.
   */
  function Search(s: string, name: string, from: nat): (r: Option<Found>)
    ensures r.Some? ==> from <= r.value.pos && DeclarationAt(s, name, r.value.pos, r.value.body)
    ensures r.Some? ==> forall p: nat, body ::
      from <= p < r.value.pos ==> !DeclarationAt(s, name, p, body)
    ensures r.None? ==> forall p: nat, body :: from <= p ==> !DeclarationAt(s, name, p, body)
    decreases |s| + 1 - from
  {
    if from > |s| then None
    else
      match MatchAt(s, name, from)
      case Some(body) => Some(Found(from, body))
      case None => Search(s, name, from + 1)
  }

  /**
   * `re.findall(r'0x[0-9A-Fa-f]{2}', t)` with each literal converted by
   * `int(_, 16)`: scanning left to right, a literal is taken where it starts
   * and the scan resumes after its four characters; elsewhere it moves on
   * by one character. Every literal consumes four characters.
   */
  function ScanHex(t: string): (r: seq<byte>)
    ensures 4 * |r| <= |t|
    decreases |t|
  {
    if |t| < 4 then []
    else if t[0] == '0' && t[1] == 'x' && IsHexDigit(t[2]) && IsHexDigit(t[3]) then
      [HexDigitValue(t[2]) * 16 + HexDigitValue(t[3])] + ScanHex(t[4..])
    else ScanHex(t[1..])
  }

  /**
   * A literal at the front is read as one byte, whatever the case of its
   * digits, and the scan continues right after it.
   */
  lemma ScanHexLiteral(hi: char, lo: char, rest: string)
    requires IsHexDigit(hi) && IsHexDigit(lo)
    ensures ScanHex(['0', 'x', hi, lo] + rest) == [HexDigitValue(hi) * 16 + HexDigitValue(lo)] + ScanHex(rest)
  {
    assert (['0', 'x', hi, lo] + rest)[4..] == rest;
  }

  /** Text without the character `0` contributes nothing to the scan. */
  lemma {:induction false} ScanHexSkip(a: string, rest: string)
    requires '0' !in a
    ensures ScanHex(a + rest) == ScanHex(rest)
    decreases |a|
  {
    if a != [] {
      var t := a + rest;
      assert t[0] == a[0] != '0';
      assert t[1..] == a[1..] + rest;
      ScanHexSkip(a[1..], rest);
      if |t| < 4 {
        assert ScanHex(t[1..]) == [];
      } else {
        assert ScanHex(t) == ScanHex(t[1..]);
      }
    } else {
      assert a + rest == rest;
    }
  }

  /**
   * The extractor: on success, the bytes of the literals in the body of
   * the first matching declaration, in order. It fails with `NotFound`
   * exactly when no declaration for `name` matches anywhere in the text.
   */
  function ExtractArray(content: string, name: string): (r: Result<seq<byte>, Error>)
    requires IsIdentifierName(name)
    ensures r.Failure? <==> forall p: nat, body :: !DeclarationAt(content, name, p, body)
    ensures r.Failure? ==> r.error == NotFound(name)
    ensures r.Success? ==> exists p: nat, body ::
      && DeclarationAt(content, name, p, body)
      && (forall p': nat, body' :: p' < p ==> !DeclarationAt(content, name, p', body'))
      && r.value == ScanHex(body)
  {
    match Search(content, name, 0)
    case None => Failure(NotFound(name))
    case Some(found) => Success(ScanHex(found.body))
  }
}
