# libextract formatters, modelled in Dafny

libextract's `formatters` module turns an extracted HTML element, as an lxml
element tree, into plain data for JSON or text output. This project models
the module's functions as pure Dafny functions over an immutable element
tree and proves what they return.

- `seqs.dfy` (module `Seqs`): `Flatten`, the concatenation of a sequence of sequences.
- `text.dfy` (module `Text`): Python's argument-less `str.split()` (`Split`),
  `sep.join(parts)` (`Join`) and `' '.join(s.split())` (`Normalize`). Also the
  lemmas that characterise them: tokens are maximal whitespace-free runs,
  splitting keeps every other character in order, join and split round-trip,
  and normalising is idempotent.
- `chunks.dfy` (module `Chunking`): the `chunks` generator, both as the
  function `Chunks` and as the method `ChunksLoop`, which follows the
  generator's buffer loop. A lemma proves the two equal.
- `html.dfy` (module `Html`): the element tree (`Node`: tag, attributes,
  `text`, `tail`, children), lxml's `text_content()` (`TextContent`) and
  `iter(tag)` (`Iter`). `Iter` is proved to be the document-order walk of the
  subtree, filtered by tag.
- `formatters.dfy` (module `Formatters`): `get_text` (`GetText`),
  `split_node_attr` (`SplitNodeAttr`; `get_node_id` and `get_node_class` are
  `NodeId` and `NodeClass`) and `node_json` (`NodeJson`, with its `Record`
  result). It also has `get_table_headings` / `get_table_data`
  (`TableHeadings` / `TableData`), and `table_json` / `table_list` (`TableJson`
  / `TableList`). These two apply `TableColumns` / `TableRows` to the headings
  and cells. Last is `ul_ol_list` (`UlOlList`).
- `scenarios.dfy` (module `Scenarios`): small concrete cases.

The `depth` of `node_json` is an `int`. Python recurses whenever `depth` is
truthy. So every non-zero depth expands the children, and a negative depth
never reaches zero and expands the whole tree. In the model a negative depth
plays the role of the `UNLIMITED` constant.

`chunks` emits a group only when its buffer reaches exactly `size` items.
Nothing is emitted after the loop, so a trailing partial group is dropped.
A `size` of zero or less emits nothing. The same goes for tables: `table_list` has no short last
row, and `table_json` never indexes a row out of range. The proof of
`TableColumns` discharges every `row[column]` access.

## Model

| member | source | states |
|---|---|---|
| Text.Split | libextract/formatters.py:30 | every token of `str.split()` is non-empty and holds no whitespace; the result is empty exactly when the string is blank (missing attributes read as `''`) |
| Text.SplitKeepsContent | libextract/formatters.py:30 | the tokens, concatenated in order, are exactly the string's non-whitespace characters in order |
| Text.SplitAtWhitespace | libextract/formatters.py:30 | any whitespace character separates tokens: splitting `a + [c] + b` is splitting `a` then `b` |
| Text.SplitToken | libextract/formatters.py:30 | a whitespace-free non-empty string splits to itself alone |
| Text.SplitBlankPrefix | libextract/formatters.py:30 | leading whitespace does not change the tokens |
| Text.SplitTokenThenBlank | libextract/formatters.py:30 | trailing whitespace after one token yields just that token |
| Text.Join | libextract/formatters.py:21 | `sep.join(parts)` is empty for no parts, otherwise as long as the parts plus one separator between each pair |
| Text.JoinAppend | libextract/formatters.py:21 | joining one more part: a single part joins to itself, and `sep.join(a + [p])` is `sep.join(a) + sep + p` for non-empty `a`; with the empty case this fixes every join's contents |
| Text.JoinSplitRoundTrip | libextract/formatters.py:71 | splitting the space-join of tokens gives the same tokens back |
| Text.JoinNormalized | libextract/formatters.py:71 | joining tokens with single spaces leaves no leading or trailing whitespace and no run of whitespace |
| Text.Normalize | libextract/formatters.py:69-76 | normalised cell text has whitespace only as single spaces between non-whitespace characters, keeps all other characters in order, and has the same tokens as the input |
| Text.NormalizeIdempotent | libextract/formatters.py:69-76 | normalising twice equals normalising once |
| Text.NormalizeTrims | libextract/formatters.py:69-76 | a single token padded with whitespace normalises to the bare token |
| Chunking.Chunks | libextract/formatters.py:56-66 | every emitted chunk has exactly `size` items; their concatenation is a prefix of the input leaving fewer than `size` items over; `size <= 0` emits nothing |
| Chunking.ChunksLoop | libextract/formatters.py:61-66 | the generator's append-and-emit loop produces exactly `Chunks(xs, size)` |
| Chunking.ChunksUnique | libextract/formatters.py:61-66 | any sequence of full-size chunks that covers a prefix of the input leaving fewer than `size` items over is `Chunks(xs, size)` |
| Chunking.ChunksCount | libextract/formatters.py:56-66 | there are `len(xs) // size` chunks, and together they are the first `size * (len(xs) // size)` items; the remainder is dropped |
| Chunking.ChunkAt | libextract/formatters.py:61-66 | chunk `i` is the slice from `i * size` to `i * size + size`, which lies within the input |
| Html.Iter | libextract/formatters.py:70 | every element `iter(tag)` yields has that tag |
| Html.IterIsFilteredSubtree | libextract/formatters.py:116 | `iter(tag)` yields exactly the subtree's elements with that tag, the element itself included, in document order |
| Formatters.GetText | libextract/formatters.py:16-21 | the space-join of the selected fragments is empty for no fragments, is otherwise one character longer per adjacent pair of fragments than their concatenation, and adds no non-whitespace character |
| Formatters.GetTextAppend | libextract/formatters.py:16-21 | one more fragment is appended after a single space (or stands alone when it is the first), so the result is the fragments in order separated by single spaces |
| Formatters.JoinKeepsContent | libextract/formatters.py:21 | a space-join holds the same non-whitespace characters, in order, as the plain concatenation of the parts |
| Formatters.SplitNodeAttr | libextract/formatters.py:24-30 | the id/class list is empty exactly when the attribute is missing or blank; otherwise its tokens are non-empty, whitespace-free, and spell out the attribute's non-whitespace characters in order |
| Formatters.NodeId | libextract/formatters.py:33 | the id list of an element is empty exactly when its `id` is missing or blank, and otherwise holds the whitespace-free tokens that spell out the `id`'s non-whitespace characters |
| Formatters.NodeClass | libextract/formatters.py:34 | the class list of an element is empty exactly when its `class` is missing or blank, and otherwise holds the whitespace-free tokens that spell out the `class`'s non-whitespace characters |
| Formatters.NodeJson | libextract/formatters.py:37-53 | the record carries the element's tag, raw text and split class and id lists; `children` is unexpanded exactly when `depth == 0`; otherwise it has one entry per direct child, in order, each with that child's tag, raw text, class list and id list, and whose own children are unexpanded exactly when `depth == 1` |
| Formatters.NodeJsonLevels | libextract/formatters.py:50-52 | a depth `d >= 0` expands exactly `min(d, height)` levels, and a negative depth expands every level of the tree |
| Formatters.DeepEnoughIsUnlimited | libextract/formatters.py:50-52 | any depth at least the tree's height, and every negative depth, gives the same record as an unlimited depth |
| Formatters.TableHeadings | libextract/formatters.py:69-71 | one heading per `th` in document order, each normalised and with the same tokens as the cell's text content |
| Formatters.TableData | libextract/formatters.py:74-76 | one entry per `td` in document order, each normalised and with the same tokens as the cell's text content |
| Formatters.Enumerate | libextract/formatters.py:88-89 | after the first `k` (column, heading) pairs the keys are those headings, and each holds the column of its last occurrence |
| Formatters.TableColumns | libextract/formatters.py:79-89 | the key set is the set of headings; under each heading is the column of its last occurrence `c`, `len(cells) // n` values long, holding the cells at `c`, `c + n`, `c + 2n`, ... |
| Formatters.ColumnOfChunks | libextract/formatters.py:88 | column `c` of the full rows is the stride-`n` slice of the cells from `c`, with `row[c]` always in range |
| Formatters.TableJson | libextract/formatters.py:79-89 | the keys of an element's column map are exactly its `th` headings, and each heading maps to the stride-`n` column of its `td` cells starting at the heading's last position, `n` being the heading count |
| Formatters.TableRows | libextract/formatters.py:92-103 | the headings come first, then `len(cells) // n` rows of exactly `n` cells whose concatenation is a prefix of the cells leaving fewer than `n` over; no headings gives `[[]]` |
| Formatters.TableList | libextract/formatters.py:92-103 | an element's row list starts with its `th` headings (alone, as `[[]]`, when there are none), followed by `len(td) // n` rows of exactly `n` cells that spell out a prefix of its `td` cells, leaving fewer than `n` over |
| Formatters.TableViewsAgree | libextract/formatters.py:79-103 | value `i` under a heading in the column map equals row `i` of the row list at the heading's last column |
| Formatters.DuplicateHeadingKeepsLater | libextract/formatters.py:88-89 | with a heading repeated at columns `a < b`, the shared key holds the data of a column at or after `b`, never `a` |
| Formatters.UlOlList | libextract/formatters.py:106-117 | the list name comes first when the id is non-blank (the id tokens), else when the class is non-blank (the class tokens), else is absent; then one item per `li` descendant with its text content, in document order |
| Scenarios.OddItemsDropLast | libextract/formatters.py:61-66 | five items in chunks of two give two chunks; the fifth item is not emitted |
| Scenarios.TwoByTwoTable | libextract/formatters.py:79-103 | headings `A`, `B` over cells `1`..`4` give rows `[A,B],[1,2],[3,4]` and columns `A: [1,3]`, `B: [2,4]` |
| Scenarios.RepeatedHeadingTable | libextract/formatters.py:88-89 | headings `A`, `A` over cells `1`..`4` give the one key `A` holding `[2,4]` |
| Scenarios.NavList | libextract/formatters.py:106-117 | a `ul` with `id="nav"` and two `li` items `Home`, `About` gives the name `["nav"]`, then `Home`, then `About` |
| Scenarios.PaddedHeading | libextract/formatters.py:71 | the heading text `"  Name \n "` normalises to `"Name"` |

## Left out

- The `xpath` entry of `node_json` (`getroottree().getpath(node)`, line 45) is left out. Path generation belongs to lxml and is not part of this model.
- The `FILTER_TEXT` query of `get_text` (line 21) is left out. It lives in `libextract/xpaths`, which is not part of this model, and lxml evaluates it. `GetText` takes the query's result as a parameter.
- `UNLIMITED = float('NaN')` (line 13) is not modelled, since floating point is out of scope. A negative integer depth behaves the same way: it is truthy and never reaches 0.
- `TextContent` follows lxml's text/tail model: the element's `text`, then each child's text content and tail. Comments, processing instructions and entity handling inside lxml are not modelled.
- `IsWhitespace` lists the characters for which Python 3's `str.isspace()` holds. Changes to that set across Unicode versions are not tracked.
- The generators (`chunks`, `get_table_headings`, `get_table_data`, `ul_ol_list`) are modelled as eagerly computed sequences. Laziness and single-pass consumption are not modelled.
- `table_json` calls `get_table_data(node)` afresh for every heading. The tree is never mutated, so every call yields the same cells, and the model reads them once.
- Formatters.NodeJson: its contract describes the record and its direct children's records. The records two or more levels down are described by `Formatters.NodeJsonLevels` (how many levels are expanded) and `Formatters.DeepEnoughIsUnlimited` (enough depth equals unlimited depth), not field by field.
- `TableJson` returns a Dafny `map`, which has no key order. Python's `dict` in `table_json` (lines 88-89) keeps the first-occurrence order of the headings, and that order is not modelled.
- `for n in node` in `node_json` (line 51) also visits comment and processing-instruction children, which lxml serialises with a function as their tag. `Html.Node` holds only elements, so these children are not modelled.
- The default `depth=0` of `node_json` (line 37) is not modelled as a default argument. `NodeJson` always takes the depth; calling it with 0 gives the default's result.
