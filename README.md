# C-array byte codec of `html_processor.py`, modelled in Dafny

`CWS2/html_processor.py` pulls a web page out of an ESP32 camera header
(`camera_index.h`). There the page is stored as a gzip stream written as a C
byte array. The script can also write an edited page back in the same shape.
This project models the part of that script that converts between bytes and C
source text, and proves that the two directions are inverse:

- **Render** (`bytes_to_c_array`) writes a byte sequence as a size comment
  `//File: index_ov2640.html.gz, Size: N`, a macro `#define <name>_len N` and
  a declaration `const unsigned char <name>[] = { ... };`. Each byte becomes a
  literal `0xHH`, written with upper-case digits and padded to two digits. The
  literals go sixteen to a line, each line is indented by two spaces, and the
  lines are joined by `",\n"`.
- **Extract** (the string part of `extract_c_array_data`) finds the first
  `const unsigned char <name>[] = {<body>};` whose body is non-empty and has
  no `}`. It reads each non-overlapping `0xHH` literal of that body, left to
  right, as a byte. The hex digits may be of either case, but the `x` of
  `0x` must be lower case (CWS2/html_processor.py:24). Literals do not
  overlap: in `0x00x12` only `0x00` is read. Any text may separate the
  literals. If no declaration matches, it fails with an error.

Modules:

- `Text` (`text.dfy`): Python's `str.join` and the decimal form of a length.
- `CSyntax` (`c_syntax.dfy`): bytes, hexadecimal digits, the `0xHH` literal,
  array names and the opening of a declaration.
- `Rendering` (`render.dfy`): `Render`, the specification of
  `bytes_to_c_array`. `BytesToCArray` is the source's loop, proved equal to
  `Render`. The module also holds the layout lemmas.
- `Extraction` (`extract.dfy`): `DeclarationAt` states what the declaration
  regular expression accepts at a position. `MatchAt` and `Search` are
  scanners proved to agree with it, and `Search` returns the leftmost match.
  `ScanHex` is the `findall` over the hex-literal pattern. `ExtractArray` is
  the extractor, with its `NotFound` error.
- `RoundTrip` (`round_trip.dfy`): extracting a name from a rendered fragment
  gives the bytes back. This holds for every byte sequence, the empty one
  included, and for every identifier name.
- `Wrappers` (`wrappers.dfy`): `Option` and `Result`.

## Model

| member | source | states |
|---|---|---|
| `Text.Join` | CWS2/html_processor.py:45 | definition, no contract: `sep.join(parts)`, the parts in order with `sep` between neighbours; its properties are `JoinEndsWithLast`, `JoinExcludes` and `JoinUnfold` |
| `Text.JoinEndsWithLast` | CWS2/html_processor.py:48 | a join of one or more parts ends with the last part, so no separator trails it |
| `Text.Decimal` | CWS2/html_processor.py:50-51 | the length is written as decimal digits without leading zeros, and those digits read back as the length |
| `CSyntax.HexDigitValue` | CWS2/html_processor.py:24-27 | a hex digit of either case has a value below 16; decimal digits have values below 10 and letters values from 10 up |
| `CSyntax.HexDigitCaseInsensitive` | CWS2/html_processor.py:24 | a lower-case hex letter has the same value as its upper-case form |
| `CSyntax.UpperHexDigit` | CWS2/html_processor.py:40 | the digit written for a value below 16 is an upper-case hex digit, and it reads back as that value |
| `CSyntax.Token` | CWS2/html_processor.py:40 | a byte's literal is exactly `0x` plus two upper-case hex digits, and the digits' value is the byte |
| `CSyntax.Tokens` | CWS2/html_processor.py:40 | definition, no contract: the list of literals `f"0x{b:02X}"`, one per byte, in order |
| `Rendering.Chunks` | CWS2/html_processor.py:43-45 | there are ceiling(n/16) groups, and group j is the slice from 16j to 16j + 16, clipped at the end |
| `Rendering.FlattenChunks` | CWS2/html_processor.py:43-46 | the groups, laid end to end, give back the data in order |
| `Rendering.ChunkSizes` | CWS2/html_processor.py:43-46 | there is one line per group; every group but the last holds 16 bytes, the last holds 1 to 16, and there are no groups exactly when the data is empty |
| `Rendering.Line` | CWS2/html_processor.py:45-46 | definition, no contract: one group's literals joined by `", "` and indented by two spaces; its layout is `LineLayout` |
| `Rendering.Lines` | CWS2/html_processor.py:43-46 | definition, no contract: the list `lines`, one line per group of sixteen; `LineFromTokens` ties it to the loop |
| `Rendering.ArrayBody` | CWS2/html_processor.py:48-54 | definition, no contract: the lines joined by `",\n"`, between the newline after `{` and the newline before `}` |
| `Rendering.Header` | CWS2/html_processor.py:50-51 | definition, no contract: the size comment and the `#define <name>_len` macro, each stating the length in decimal; see `HeaderStatesLength` |
| `Rendering.Render` | CWS2/html_processor.py:50-54 | definition, no contract: the returned f-string, header then declaration then body then `};`; `BytesToCArray` is proved equal to it and `RenderThenExtract` inverts it |
| `Rendering.LineFromTokens` | CWS2/html_processor.py:44-46 | line j exists exactly when 16j is below the length, and it is the indented join of literals 16j up to 16j + 16 |
| `Rendering.BytesToCArray` | CWS2/html_processor.py:38-54 | the loop that appends one line per group of 16, plus the final f-string, returns exactly `Render(data, name)` for every byte sequence and every name |
| `Rendering.TokenListLayout` | CWS2/html_processor.py:45 | in a group's literals joined by `", "`, literal k sits at offset 6k, `", "` follows every literal but the last, and a group of n literals joins to 6n - 2 characters |
| `Rendering.LineLayout` | CWS2/html_processor.py:45-46 | a line starts with two spaces; literal k sits at offset 2 + 6k; `", "` follows every literal but the last; the line is 6 characters per literal long |
| `Rendering.TokenPlacement` | CWS2/html_processor.py:40-46 | literal k of line j is the literal of byte 16j + k, so input order is kept |
| `Rendering.LineEnd` | CWS2/html_processor.py:45-46 | a line ends with the literal of its group's last byte |
| `Rendering.JoinedLinesEnd` | CWS2/html_processor.py:48 | the lines joined by `",\n"` end with the literal of the last byte |
| `Rendering.NoTrailingComma` | CWS2/html_processor.py:48-54 | a non-empty rendered array ends with the last byte's literal, then `\n};`, with no comma after the last literal |
| `Rendering.HeaderStatesLength` | CWS2/html_processor.py:50-51 | the size comment and the `#define <name>_len` macro state the same decimal number, and that number is the length of the data |
| `Rendering.TwentyZeroBytes` | CWS2/html_processor.py:40-51 | twenty zero bytes named `x` give `Size: 20`, `#define x_len 20`, and two lines of 16 and 4 literals `0x00` |
| `Extraction.DeclarationAt` | CWS2/html_processor.py:16 | definition, no contract: where the declaration pattern matches, namely the opening text with the name, a non-empty body without `}`, then `};`; `MatchAt`, `Search` and `ExtractArray` are proved against it |
| `Extraction.DeclarationBodyUnique` | CWS2/html_processor.py:16-17 | the declaration pattern captures at most one body at a position |
| `Extraction.FirstIndexOf` | CWS2/html_processor.py:16 | the result is the first `}` at or after the start, or the end of the text when there is none |
| `Extraction.MatchAt` | CWS2/html_processor.py:16-17 | the scanner returns a body exactly when the declaration pattern matches at that position, and the body it returns is the group the pattern captures |
| `Extraction.Search` | CWS2/html_processor.py:17 | the result is the leftmost matching position with its body; no match means no position matches |
| `Extraction.ScanHex` | CWS2/html_processor.py:24-27 | each literal read consumes four characters of the body |
| `Extraction.ScanHexLiteral` | CWS2/html_processor.py:24-27 | a literal `0x` plus two hex digits of either case, at the front, is read as one byte of that value; the scan continues right after it |
| `Extraction.ScanHexSkip` | CWS2/html_processor.py:24 | text without the character `0` adds nothing to the scan |
| `Extraction.ExtractArray` | CWS2/html_processor.py:15-28 | fails with `NotFound(name)` exactly when no declaration matches anywhere; otherwise returns the bytes of the literals in the body of the leftmost match |
| `RoundTrip.ScanToken` | CWS2/html_processor.py:24-27 | a rendered literal is read back as its byte |
| `RoundTrip.ScanTokenList` | CWS2/html_processor.py:45 | a group's literals joined by `", "` are read back as the group, in order |
| `RoundTrip.ScanLine` | CWS2/html_processor.py:46 | an indented line is read back as its group |
| `RoundTrip.ScanLineList` | CWS2/html_processor.py:48 | lines joined by `",\n"` are read back as their groups laid end to end |
| `RoundTrip.ScanArrayBody` | CWS2/html_processor.py:52-54 | reading the literals of a rendered body gives exactly the data: every byte, in order, and nothing more |
| `RoundTrip.ArrayBodyShape` | CWS2/html_processor.py:52-54 | a rendered body is never empty and never holds `}`, even for empty data |
| `RoundTrip.NoDeclarationInHeader` | CWS2/html_processor.py:50-51 | no declaration of the name can start inside the size comment or the length macro |
| `RoundTrip.DeclarationAfterHeader` | CWS2/html_processor.py:52-54 | right after the header, the declaration pattern matches and captures the rendered body |
| `RoundTrip.ExtractRenderedPrefix` | CWS2/html_processor.py:16-27 | extracting the name from a rendered fragment, whatever text follows it, gives back the rendered bytes |
| `RoundTrip.RenderThenExtract` | CWS2/html_processor.py:38-54 | round trip: for every byte sequence, the empty one included, and every identifier name, extracting the name from `Render(data, name)` gives `data` |
| `RoundTrip.FirstDeclarationWins` | CWS2/html_processor.py:17 | with two rendered arrays of the same name in a row, the first one is extracted |

## Left out

- `compress_html` and `decompress_html` (CWS2/html_processor.py:30-36) are not modelled. They call gzip and UTF-8 library code, which is not part of this model. So the round trip is stated on the compressed bytes, not on the page text.
- The file read in `extract_c_array_data` (CWS2/html_processor.py:12-13) is not modelled: the extractor takes the file's content as a string.
- `main` (CWS2/html_processor.py:56-101) is not modelled. It consists of file reads and writes, hard-coded paths, the check for the edited file, printing and the catch-all `except`.
- `esp-cat/html/html-minify.py` is not part of this model. It calls the external `htmlmin`, `rcssmin` and `rjsmin` libraries and does file I/O.
- Extraction.ExtractArray: requires the array name to be made of letters, digits and `_`. The source pastes the name into the pattern without escaping it. A name with regular-expression metacharacters would change the pattern, and that behaviour is not modelled.
- Extraction.ScanHex: its own contract states only that each literal consumes four characters. What it reads is stated by `ScanHexLiteral`, `ScanHexSkip` and the round-trip lemmas.
- Python's general regular-expression engine is not modelled. Only the two fixed patterns are modelled, each as an explicit scanner.
