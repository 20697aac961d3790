/**
 * The two halves of the codec are inverse: the script renders an array with
 * `bytes_to_c_array` and later reads it back with `extract_c_array_data`
 * under the same name, and gets the same bytes.
 *
 * The proof has three parts: scanning a rendered body gives back the bytes;
 * the body holds no `}`, so the declaration pattern matches at the
 * declaration; and the size comment and macro that precede it cannot start
 * a match, so that declaration is the first one.
 */
module RoundTrip {
  import opened Wrappers
  import opened Text
  import opened CSyntax
  import opened Rendering
  import opened Extraction

  /** A rendered literal is read back as its byte. */
  lemma ScanToken(b: byte, rest: string)
    ensures ScanHex(Token(b) + rest) == [b] + ScanHex(rest)
  {
    var t := Token(b);
    assert t == ['0', 'x', t[2], t[3]];
    ScanHexLiteral(t[2], t[3], rest);
  }

  /** The literals of a group joined by `", "` are read back as the group, in order. */
  lemma {:induction false} ScanTokenList(group: seq<byte>, rest: string)
    ensures ScanHex(Join(Tokens(group), ", ") + rest) == group + ScanHex(rest)
    decreases |group|
  {
    var ts := Tokens(group);
    if |group| == 0 {
      assert Join(ts, ", ") + rest == rest;
    } else if |group| == 1 {
      ScanToken(group[0], rest);
      assert [group[0]] == group;
    } else {
      var tail := group[1..];
      var joined := Join(Tokens(tail), ", ");
      assert ts[1..] == Tokens(tail);
      calc {
        ScanHex(Join(ts, ", ") + rest);
        == { JoinUnfold(ts, ", ", rest); }
        ScanHex(Token(group[0]) + (", " + (joined + rest)));
        == { ScanToken(group[0], ", " + (joined + rest)); }
        [group[0]] + ScanHex(", " + (joined + rest));
        == { ScanHexSkip(", ", joined + rest); }
        [group[0]] + ScanHex(joined + rest);
        == { ScanTokenList(tail, rest); }
        [group[0]] + (tail + ScanHex(rest));
        == { assert [group[0]] + tail == group; }
        group + ScanHex(rest);
      }
    }
  }

  /** A rendered line is read back as its group: the indentation adds nothing. */
  lemma ScanLine(group: seq<byte>, rest: string)
    ensures ScanHex(Line(group) + rest) == group + ScanHex(rest)
  {
    var joined := Join(Tokens(group), ", ");
    assert Line(group) + rest == "  " + (joined + rest);
    ScanHexSkip("  ", joined + rest);
    ScanTokenList(group, rest);
  }

  /** Lines joined by `",\n"` are read back as their groups laid end to end. */
  lemma {:induction false} ScanLineList(lines: seq<string>, groups: seq<seq<byte>>, rest: string)
    requires |lines| == |groups|
    requires forall j :: 0 <= j < |lines| ==> lines[j] == Line(groups[j])
    ensures ScanHex(Join(lines, ",\n") + rest) == Flatten(groups) + ScanHex(rest)
    decreases |lines|
  {
    if |lines| == 0 {
      assert Join(lines, ",\n") + rest == rest;
    } else if |lines| == 1 {
      ScanLine(groups[0], rest);
      assert groups[1..] == [];
    } else {
      var joined := Join(lines[1..], ",\n");
      calc {
        ScanHex(Join(lines, ",\n") + rest);
        == { JoinUnfold(lines, ",\n", rest); }
        ScanHex(Line(groups[0]) + (",\n" + (joined + rest)));
        == { ScanLine(groups[0], ",\n" + (joined + rest)); }
        groups[0] + ScanHex(",\n" + (joined + rest));
        == { ScanHexSkip(",\n", joined + rest); }
        groups[0] + ScanHex(joined + rest);
        == { ScanLineList(lines[1..], groups[1..], rest); }
        groups[0] + (Flatten(groups[1..]) + ScanHex(rest));
      }
    }
  }

  /** The body of a rendered array holds the literals of exactly the data, in order, and nothing else. */
  lemma ScanArrayBody(data: seq<byte>)
    ensures ScanHex(ArrayBody(data)) == data
  {
    var joined := Join(Lines(data), ",\n");
    assert ArrayBody(data) == "\n" + (joined + "\n");
    ScanHexSkip("\n", joined + "\n");
    ScanLineList(Lines(data), Chunks(data), "\n");
    FlattenChunks(data);
    assert ScanHex("\n") == [];
  }

  /** The body of a rendered array is never empty and never holds `}`. */
  lemma ArrayBodyShape(data: seq<byte>)
    ensures ArrayBody(data) != [] && '}' !in ArrayBody(data)
  {
    var lines := Lines(data);
    forall j | 0 <= j < |lines| ensures '}' !in lines[j] {
      var ts := Tokens(Chunks(data)[j]);
      forall k | 0 <= k < |ts| ensures '}' !in ts[k] {
        TokenAlphabet(Chunks(data)[j][k]);
      }
      JoinExcludes(ts, ", ", '}');
    }
    JoinExcludes(lines, ",\n", '}');
  }

  /** The characters of the header before the array name. */
  function HeaderHead(n: nat): string {
    SizeLabel + Decimal(n) + "\n#define "
  }

  /** The characters of the header after the array name. */
  function HeaderTail(n: nat): string {
    "_len " + Decimal(n) + "\n"
  }

  /** Around the name, the header holds no `c`, so no declaration can start there. */
  lemma HeaderPartsWithoutC(n: nat)
    ensures 'c' !in HeaderHead(n) && 'c' !in HeaderTail(n)
    ensures HeaderTail(n)[..5] == "_len "
  {
    var d := Decimal(n);
    assert 'c' !in d by {
      forall i | 0 <= i < |d| ensures d[i] != 'c' {
        assert IsDigit(d[i]);
      }
    }
  }

  /**
   * In text laid out as `a + name + c + rest`, where `a` and `c` hold no `c`
   * character, `c` starts with `_len ` and `name` is an identifier, no
   * position before `rest` starts the word `const ` followed by a space. A
   * start inside the name cannot reach the space: identifier characters and
   * `_len` cannot hold it.
   */
  lemma NoConstBefore(a: string, name: string, c: string, rest: string, p: nat)
    requires 'c' !in a && 'c' !in c && |c| >= 5 && c[..5] == "_len "
    requires IsIdentifierName(name)
    requires p < |a| + |name| + |c| && p + 6 <= |a + name + c + rest|
    ensures (a + name + c + rest)[p .. p + 6] != "const "
  {
    var s := a + name + c + rest;
    if p < |a| {
      assert s[p] == a[p] != 'c';
    } else if p < |a| + |name| {
      var m := |a| + |name| - p;
      if m == 1 {
        assert s[p + 1] == c[0] == '_';
      } else if m > 5 {
        assert s[p + 5] == name[p + 5 - |a|];
        assert IsIdentifierChar(s[p + 5]);
      } else {
        assert s[p + 5] == c[5 - m] == "_len "[5 - m];
      }
    } else {
      assert s[p] == c[p - |a| - |name|] != 'c';
    }
  }

  /**
   * No declaration of `name` starts inside the size comment or the length
   * macro, whatever follows the rendered fragment.
   */
  lemma NoDeclarationInHeader(data: seq<byte>, name: string, tail: string)
    requires IsIdentifierName(name)
    ensures forall p: nat, body :: p < |Header(|data|, name)| ==>
      !DeclarationAt(Render(data, name) + tail, name, p, body)
  {
    var n := |data|;
    var s := Render(data, name) + tail;
    var a, c := HeaderHead(n), HeaderTail(n);
    var rest := DeclOpen(name) + ArrayBody(data) + "};" + tail;
    HeaderPartsWithoutC(n);
    RenderedLayout(data, name, tail);
    forall p: nat, body | p < |Header(n, name)| && DeclarationAt(s, name, p, body)
      ensures false
    {
      DeclarationStartsWithConst(s, name, p, body);
      NoConstBefore(a, name, c, rest, p);
    }
  }

  /** Rendered text split around the array name in the header. */
  lemma RenderedLayout(data: seq<byte>, name: string, tail: string)
    ensures var n := |data|;
      && Render(data, name) + tail ==
         HeaderHead(n) + name + HeaderTail(n) + (DeclOpen(name) + ArrayBody(data) + "};" + tail)
      && |Header(n, name)| == |HeaderHead(n)| + |name| + |HeaderTail(n)|
  {
  }

  /** Every declaration starts with the word `const` and a space. */
  lemma DeclarationStartsWithConst(s: string, name: string, p: nat, body: string)
    requires DeclarationAt(s, name, p, body)
    ensures p + 6 <= |s| && s[p .. p + 6] == "const "
  {
    var open := DeclOpen(name);
    assert s[p .. p + |open|] == open;
    assert s[p .. p + 6] == open[..6];
  }

  /** Right after the header, the declaration pattern matches with the rendered body as its group. */
  lemma DeclarationAfterHeader(data: seq<byte>, name: string, tail: string)
    ensures DeclarationAt(Render(data, name) + tail, name, |Header(|data|, name)|, ArrayBody(data))
  {
    var h := Header(|data|, name);
    var open := DeclOpen(name);
    var body := ArrayBody(data);
    var s := Render(data, name) + tail;
    ArrayBodyShape(data);
    assert s == h + open + body + "};" + tail;
    var q := |h| + |open|;
    assert s[|h| .. q] == open;
    assert s[q .. q + |body|] == body;
    assert s[q + |body|] == '}';
    assert s[q + |body| + 1] == ';';
  }

  /**
   * Extracting `name` from a rendered array, whatever text follows it, gives
   * back exactly the rendered bytes: the rendered declaration is the first
   * match.
   */
  lemma ExtractRenderedPrefix(data: seq<byte>, name: string, tail: string)
    requires IsIdentifierName(name)
    ensures ExtractArray(Render(data, name) + tail, name) == Success(data)
  {
    var s := Render(data, name) + tail;
    var at := |Header(|data|, name)|;
    NoDeclarationInHeader(data, name, tail);
    DeclarationAfterHeader(data, name, tail);
    var r := Search(s, name, 0);
    assert r.Some?;
    var found := r.value;
    assert found.pos == at;
    DeclarationBodyUnique(s, name, at, found.body, ArrayBody(data));
    ScanArrayBody(data);
  }

  /**
   * The round trip the script relies on: for every byte sequence, the empty
   * one included, and every identifier name, extracting the name from the
   * rendered fragment yields the bytes.
   */
  lemma RenderThenExtract(data: seq<byte>, name: string)
    requires IsIdentifierName(name)
    ensures ExtractArray(Render(data, name), name) == Success(data)
  {
    ExtractRenderedPrefix(data, name, "");
    assert Render(data, name) + "" == Render(data, name);
  }

  /**
   * With two rendered arrays of the same name one after the other, the first
   * one is extracted.
   */
  lemma FirstDeclarationWins(first: seq<byte>, second: seq<byte>, name: string)
    requires IsIdentifierName(name)
    ensures ExtractArray(Render(first, name) + "\n" + Render(second, name), name) == Success(first)
  {
    var tail := "\n" + Render(second, name);
    ExtractRenderedPrefix(first, name, tail);
    assert Render(first, name) + "\n" + Render(second, name) == Render(first, name) + tail;
  }
}
