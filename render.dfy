/**
 * `bytes_to_c_array(byte_data, array_name)`: a byte sequence rendered as a C
 * header fragment. The fragment is a size comment, a length macro and a
 * `const unsigned char` array whose literals are sixteen to a line.
 *
 * `Render` is the specification and `BytesToCArray` is the source's loop,
 * which builds the list of lines one group of sixteen at a time.
 */
module Rendering {
  import opened Text
  import opened CSyntax

  function Min(a: int, b: int): int {
    if a < b then a else b
  }

  /** The label of the size comment, as fixed in the source. */
  const SizeLabel := "//File: index_ov2640.html.gz, Size: "

  /** The groups laid end to end. */
  function Flatten(groups: seq<seq<byte>>): seq<byte>
    decreases |groups|
  {
    if groups == [] then [] else groups[0] + Flatten(groups[1..])
  }

  /**
   * The slices `data[i:i+16]` for `i` in `range(0, len(data), 16)`: the
   * ceiling of n/16 groups, group j holding bytes 16j up to 16j + 16 (or
   * the end).
   */
  function Chunks(data: seq<byte>): (r: seq<seq<byte>>)
    ensures |r| == (|data| + 15) / 16
    ensures forall j :: 0 <= j < |r| ==> r[j] == data[16 * j .. Min(16 * j + 16, |data|)]
    decreases |data|
  {
    if |data| == 0 then []
    else if |data| <= 16 then [data]
    else
      var rest := Chunks(data[16..]);
      var r := [data[..16]] + rest;
      assert forall j :: 1 <= j < |r| ==> r[j] == data[16 * j .. Min(16 * j + 16, |data|)] by {
        forall j | 1 <= j < |r|
          ensures r[j] == data[16 * j .. Min(16 * j + 16, |data|)]
        {
          assert r[j] == rest[j - 1];
          SliceAfterFirstGroup(data, j - 1);
        }
      }
      r
  }

  /** Group i of the data after its first sixteen bytes is group i + 1 of the data. */
  lemma SliceAfterFirstGroup(data: seq<byte>, i: nat)
    requires |data| > 16 && 16 * i < |data| - 16
    ensures data[16..][16 * i .. Min(16 * i + 16, |data| - 16)]
         == data[16 * (i + 1) .. Min(16 * (i + 1) + 16, |data|)]
  {
    var lo, hi := 16 * i, Min(16 * i + 16, |data| - 16);
    assert 16 + lo == 16 * (i + 1);
    assert 16 + hi == Min(16 * (i + 1) + 16, |data|);
    assert data[16..][lo .. hi] == data[16 + lo .. 16 + hi];
  }

  /** The groups, laid end to end, give back the data in order: nothing lost, nothing reordered. */
  lemma {:induction false} FlattenChunks(data: seq<byte>)
    ensures Flatten(Chunks(data)) == data
    decreases |data|
  {
    if |data| > 16 {
      FlattenChunks(data[16..]);
      var r := Chunks(data);
      assert r == [data[..16]] + Chunks(data[16..]);
      assert r[1..] == Chunks(data[16..]);
      assert data[..16] + data[16..] == data;
    } else if |data| > 0 {
      assert Chunks(data)[1..] == [];
    }
  }

  /** `"  " + ", ".join(tokens of one group)` */
  function Line(group: seq<byte>): string {
    "  " + Join(Tokens(group), ", ")
  }

  /** The list `lines` the source builds: one line per group of sixteen. */
  function Lines(data: seq<byte>): seq<string> {
    var groups := Chunks(data);
    seq(|groups|, j requires 0 <= j < |groups| => Line(groups[j]))
  }

  /** What stands between `{` and `}`: the lines joined by `",\n"`, between two newlines. */
  function ArrayBody(data: seq<byte>): string {
    "\n" + Join(Lines(data), ",\n") + "\n"
  }

  /** The size comment and the length macro, both stating `n` in decimal. */
  function Header(n: nat, name: string): string {
    SizeLabel + Decimal(n) + "\n#define " + name + "_len " + Decimal(n) + "\n"
  }

  /** The complete fragment `bytes_to_c_array` returns. Defined for every byte sequence and name. */
  function Render(data: seq<byte>, name: string): string {
    Header(|data|, name) + DeclOpen(name) + ArrayBody(data) + "};"
  }

  /**
   * The group that starts at token 16j exists exactly when 16j is below the
   * length, and its line is the indented join of tokens 16j up to 16j + 16
   * (or the end).
   */
  lemma LineFromTokens(data: seq<byte>, j: nat)
    ensures j < |Lines(data)| <==> 16 * j < |data|
    ensures j < |Lines(data)| ==>
      Lines(data)[j] == "  " + Join(Tokens(data)[16 * j .. Min(16 * j + 16, |data|)], ", ")
  {
    if j < |Lines(data)| {
      assert Tokens(data)[16 * j .. Min(16 * j + 16, |data|)] == Tokens(Chunks(data)[j]);
    }
  }

  /**
   * The source's loop over `range(0, len(hex_values), 16)`, appending one
   * indented line per group, then the join by `",\n"` and the f-string.
   */
  method BytesToCArray(data: seq<byte>, name: string) returns (text: string)
    ensures text == Render(data, name)
  {
    var hexValues := Tokens(data);
    var lines: seq<string> := [];
    var i := 0;
    while i < |hexValues|
      invariant i == 16 * |lines|
      invariant |lines| <= |Lines(data)|
      invariant lines == Lines(data)[..|lines|]
    {
      LineFromTokens(data, |lines|);
      lines := lines + ["  " + Join(hexValues[i .. Min(i + 16, |hexValues|)], ", ")];
      i := i + 16;
    }
    LineFromTokens(data, |lines|);
    assert lines == Lines(data);
    var arrayContent := Join(lines, ",\n");
    text := Header(|data|, name) + DeclOpen(name) + ("\n" + arrayContent + "\n") + "};";
  }

  /** Every group but the last holds sixteen bytes; the last holds one to sixteen. */
  lemma ChunkSizes(data: seq<byte>)
    ensures var groups := Chunks(data);
      && |groups| == |Lines(data)|
      && (forall j :: 0 <= j < |groups| - 1 ==> |groups[j]| == 16)
      && (data != [] ==> 1 <= |groups[|groups| - 1]| <= 16)
      && (data == [] <==> groups == [])
  {
  }

  /** A slice of the text after a prefix, read in the whole text, is shifted by the prefix's length. */
  lemma ShiftedSlice(head: string, rest: string, lo: nat, hi: nat)
    requires lo <= hi <= |rest|
    ensures (head + rest)[|head| + lo .. |head| + hi] == rest[lo .. hi]
  {
  }

  /**
   * The tokens of a group joined by `", "`: token k sits at offset 6k and,
   * except after the last token, `", "` follows it.
   */
  lemma {:induction false} TokenListLayout(group: seq<byte>)
    requires |group| > 0
    ensures var j := Join(Tokens(group), ", ");
      && |j| == 6 * |group| - 2
      && (forall k :: 0 <= k < |group| ==> j[6 * k .. 6 * k + 4] == Token(group[k]))
      && (forall k :: 0 <= k < |group| - 1 ==> j[6 * k + 4 .. 6 * k + 6] == ", ")
    decreases |group|
  {
    var ts := Tokens(group);
    var j := Join(ts, ", ");
    if |group| > 1 {
      var tail := group[1..];
      assert ts[1..] == Tokens(tail);
      TokenListLayout(tail);
      var j' := Join(Tokens(tail), ", ");
      var head := Token(group[0]) + ", ";
      assert j == head + j';
      forall k | 1 <= k < |group|
        ensures j[6 * k .. 6 * k + 4] == Token(group[k])
      {
        ShiftedSlice(head, j', 6 * (k - 1), 6 * (k - 1) + 4);
        assert tail[k - 1] == group[k];
      }
      forall k | 1 <= k < |group| - 1
        ensures j[6 * k + 4 .. 6 * k + 6] == ", "
      {
        ShiftedSlice(head, j', 6 * (k - 1) + 4, 6 * (k - 1) + 6);
      }
      assert j[0..4] == Token(group[0]);
      assert j[4..6] == ", ";
    }
  }

  /**
   * A rendered line: two spaces of indentation, then token k of the group at
   * offset 2 + 6k, each but the last followed by `", "`, and nothing after
   * the last token.
   */
  lemma LineLayout(group: seq<byte>)
    requires |group| > 0
    ensures var line := Line(group);
      && |line| == 6 * |group|
      && line[..2] == "  "
      && (forall k :: 0 <= k < |group| ==> line[2 + 6 * k .. 6 + 6 * k] == Token(group[k]))
      && (forall k :: 0 <= k < |group| - 1 ==> line[6 + 6 * k .. 8 + 6 * k] == ", ")
  {
    TokenListLayout(group);
    var j := Join(Tokens(group), ", ");
    var line := Line(group);
    forall k | 0 <= k < |group|
      ensures line[2 + 6 * k .. 6 + 6 * k] == Token(group[k])
    {
      assert line[2 + 6 * k .. 6 + 6 * k] == j[6 * k .. 6 * k + 4];
    }
    forall k | 0 <= k < |group| - 1
      ensures line[6 + 6 * k .. 8 + 6 * k] == ", "
    {
      assert line[6 + 6 * k .. 8 + 6 * k] == j[6 * k + 4 .. 6 * k + 6];
    }
  }

  /**
   * Input order is kept: the k-th token of line j is the literal of byte
   * 16j + k, and line j has six characters per token it holds.
   */
  lemma TokenPlacement(data: seq<byte>, j: nat, k: nat)
    requires j < |Lines(data)| && k < |Chunks(data)[j]|
    ensures 16 * j + k < |data|
    ensures |Lines(data)[j]| == 6 * |Chunks(data)[j]|
    ensures Lines(data)[j][2 + 6 * k .. 6 + 6 * k] == Token(data[16 * j + k])
  {
    var group := Chunks(data)[j];
    LineLayout(group);
    assert group[k] == data[16 * j + k];
  }

  /** The last group of a non-empty array is non-empty and ends with the array's last byte. */
  lemma LastGroupEnd(data: seq<byte>)
    requires data != []
    ensures var groups := Chunks(data);
      |groups| > 0 && |groups[|groups| - 1]| > 0 &&
      groups[|groups| - 1][|groups[|groups| - 1]| - 1] == data[|data| - 1]
  {
  }

  /** A line ends with the literal of the last byte of its group. */
  lemma LineEnd(group: seq<byte>)
    requires group != []
    ensures var line := Line(group);
      |line| >= 4 && line[|line| - 4..] == Token(group[|group| - 1])
  {
    LineLayout(group);
    var m := |group|;
    assert Line(group)[2 + 6 * (m - 1) .. 6 + 6 * (m - 1)] == Token(group[m - 1]);
  }

  /** The joined lines of a non-empty array end with the literal of its last byte. */
  lemma JoinedLinesEnd(data: seq<byte>)
    requires data != []
    ensures var joined := Join(Lines(data), ",\n");
      |joined| >= 4 && joined[|joined| - 4..] == Token(data[|data| - 1])
  {
    var lines := Lines(data);
    var groups := Chunks(data);
    LastGroupEnd(data);
    var last := groups[|groups| - 1];
    LineEnd(last);
    var line := lines[|lines| - 1];
    assert line == Line(last);
    JoinEndsWithLast(lines, ",\n");
    var joined := Join(lines, ",\n");
    assert joined[|joined| - |line|..] == line;
    assert joined[|joined| - 4..] == line[|line| - 4..];
  }

  /**
   * No comma follows the final literal: a non-empty array's text ends with
   * the literal of its last byte, a newline and `};`.
   */
  lemma NoTrailingComma(data: seq<byte>, name: string)
    requires data != []
    ensures var t := Render(data, name);
      |t| >= 7 && t[|t| - 7..] == Token(data[|data| - 1]) + "\n};"
  {
    JoinedLinesEnd(data);
    var joined := Join(Lines(data), ",\n");
    var t := Render(data, name);
    var front := Header(|data|, name) + DeclOpen(name) + "\n";
    assert t == front + joined + "\n};";
    assert t[|t| - 7..] == joined[|joined| - 4..] + "\n};";
  }

  /**
   * The size comment and the `#define <name>_len` macro both state the
   * same decimal number, and that number is the length of the data.
   */
  lemma HeaderStatesLength(data: seq<byte>, name: string)
    ensures exists digits ::
      && IsDecimal(digits)
      && DecimalValue(digits) == |data|
      && SizeLabel + digits + "\n#define " + name + "_len " + digits + "\n" <= Render(data, name)
  {
    var digits := Decimal(|data|);
    var h := Header(|data|, name);
    var t := Render(data, name);
    assert t == h + (DeclOpen(name) + ArrayBody(data) + "};");
    assert h <= t;
  }

  /**
   * Twenty zero bytes named `x`: the header reads `Size: 20` and
   * `#define x_len 20`, and the literals `0x00` fill two lines, sixteen and
   * then four.
   */
  lemma TwentyZeroBytes()
    ensures Header(20, "x") == SizeLabel + "20\n#define x_len 20\n"
    ensures var data: seq<byte> := seq(20, _ => 0);
      && |Lines(data)| == 2
      && |Chunks(data)[0]| == 16 && |Chunks(data)[1]| == 4
      && Token(data[19]) == "0x00"
  {
    assert Decimal(20) == "20" by {
      assert Decimal(2) == "2";
    }
  }
}
