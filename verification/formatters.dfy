/**
 libextract's formatters: functions that turn an extracted HTML element into
 plain data for JSON or text output. Each is a pure function of the element
 tree: attribute splitting, a depth-bounded serialisation of an element and
 its descendants, two shapes of a table (a column map and a list of rows) and
 the items of a `<ul>`/`<ol>` list.
 */
module Formatters {
  import opened Seqs
  import opened Text
  import opened Chunking
  import opened Html

  // ---------------------------------------------------------------------
  // Text aggregation
  // ---------------------------------------------------------------------

  /** `get_text`: the text fragments the element's text query selects,
      joined by single spaces. The query itself is evaluated by the XPath
      engine, so its result is a parameter here. */
  function GetText(fragments: seq<string>): (r: string)
    ensures fragments == [] ==> r == ""
    ensures fragments != [] ==> |r| == |Flatten(fragments)| + |fragments| - 1
    ensures NonWs(r) == NonWs(Flatten(fragments))
  {
    JoinKeepsContent(fragments);
    Join(" ", fragments)
  }

  /** Adding one more fragment appends a space and that fragment verbatim:
      the fragments stand in order, one space between neighbours. */
  lemma GetTextAppend(fragments: seq<string>, p: string)
    ensures GetText(fragments + [p]) == if fragments == [] then p else GetText(fragments) + " " + p
  {
    JoinAppend(" ", fragments, p);
  }

  /** Joining with a space adds only whitespace to the pieces. */
  lemma {:induction false} JoinKeepsContent(parts: seq<string>)
    ensures NonWs(Join(" ", parts)) == NonWs(Flatten(parts))
  {
    if |parts| > 1 {
      var rest := Join(" ", parts[1..]);
      calc {
        NonWs(Join(" ", parts));
        NonWs(parts[0] + " " + rest);
        { NonWsAppend(parts[0] + " ", rest); NonWsAppend(parts[0], " "); }
        NonWs(parts[0]) + NonWs(" ") + NonWs(rest);
        { assert NonWs(" ") == []; JoinKeepsContent(parts[1..]); }
        NonWs(parts[0]) + NonWs(Flatten(parts[1..]));
        { NonWsAppend(parts[0], Flatten(parts[1..])); }
        NonWs(Flatten(parts));
      }
    } else if |parts| == 1 {
      assert Flatten(parts[1..]) == [];
      assert Flatten(parts) == parts[0];
    }
  }

  // ---------------------------------------------------------------------
  // Attribute splitting
  // ---------------------------------------------------------------------

  /** `node.get(attr) or ''`: a missing attribute reads as the empty string. */
  function AttrValue(n: Node, attr: string): string
  {
    if attr in n.attrs then n.attrs[attr] else ""
  }

  /** `split_node_attr`: the whitespace-separated tokens of an attribute. */
  function SplitNodeAttr(n: Node, attr: string): (r: seq<string>)
    ensures r == [] <==> attr !in n.attrs || IsBlank(n.attrs[attr])
    ensures AllTokens(r)
    ensures Flatten(r) == NonWs(AttrValue(n, attr))
  {
    SplitKeepsContent(AttrValue(n, attr));
    Split(AttrValue(n, attr))
  }

  /** `get_node_id`: the tokens of the `id` attribute. */
  function NodeId(n: Node): (r: seq<string>)
    ensures r == [] <==> IsBlank(AttrValue(n, "id"))
    ensures AllTokens(r)
    ensures Flatten(r) == NonWs(AttrValue(n, "id"))
  {
    SplitNodeAttr(n, "id")
  }

  /** `get_node_class`: the tokens of the `class` attribute. */
  function NodeClass(n: Node): (r: seq<string>)
    ensures r == [] <==> IsBlank(AttrValue(n, "class"))
    ensures AllTokens(r)
    ensures Flatten(r) == NonWs(AttrValue(n, "class"))
  {
    SplitNodeAttr(n, "class")
  }

  // ---------------------------------------------------------------------
  // Depth-bounded serialisation
  // ---------------------------------------------------------------------

  /** The dictionary `node_json` builds, without its `xpath` entry.
      `children` is `Unexpanded` when the depth budget ran out, which is not
      the same as `Expanded([])` for an element that has no children. */
  datatype Record = Record(
    classes: seq<string>,
    text: Option<string>,
    tag: string,
    ids: seq<string>,
    children: Children)

  /** The `children` entry: Python's `None` when the depth budget is spent,
      otherwise the list of the children's records. */
  datatype Children = Unexpanded | Expanded(records: seq<Record>)

  /** `node_json(node, depth)`. Python recurses whenever `depth` is truthy,
      so every non-zero depth expands the children; a negative depth never
      reaches zero and expands the whole tree, the role of `UNLIMITED`. */
  function NodeJson(n: Node, depth: int): (r: Record)
    ensures r.tag == n.tag && r.text == n.text
    ensures r.classes == NodeClass(n) && r.ids == NodeId(n)
    ensures r.children.Unexpanded? <==> depth == 0
    ensures r.children.Expanded? ==> |r.children.records| == |n.children|
    ensures r.children.Expanded? ==>
      forall i :: 0 <= i < |n.children| ==>
        && r.children.records[i].tag == n.children[i].tag
        && r.children.records[i].text == n.children[i].text
        && r.children.records[i].classes == NodeClass(n.children[i])
        && r.children.records[i].ids == NodeId(n.children[i])
        && (r.children.records[i].children.Unexpanded? <==> depth == 1)
    decreases n
  {
    Record(
      NodeClass(n),
      n.text,
      n.tag,
      NodeId(n),
      if depth != 0 then
        Expanded(seq(|n.children|, i requires 0 <= i < |n.children| =>
          NodeJson(n.children[i], depth - 1)))
      else Unexpanded)
  }

  /** The largest element of `s`, or 0 for the empty sequence. */
  function MaxOf(s: seq<nat>): (m: nat)
    ensures forall i :: 0 <= i < |s| ==> s[i] <= m
    ensures s != [] ==> m in s
    ensures s == [] ==> m == 0
  {
    if s == [] then 0
    else
      var t := MaxOf(s[1..]);
      assert s[1..] != [] ==> t in s;
      if s[0] >= t then s[0] else t
  }

  function Min(a: int, b: int): int
  {
    if a <= b then a else b
  }

  /** The number of levels of a tree: 1 for a leaf. */
  function Height(n: Node): (h: nat)
    ensures h >= 1
    decreases n
  {
    1 + MaxOf(seq(|n.children|, i requires 0 <= i < |n.children| => Height(n.children[i])))
  }

  /** The number of expanded levels of a record: 0 when its children were
      not expanded, 1 when they were and there are none. */
  function Levels(r: Record): nat
    decreases r
  {
    match r.children
    case Unexpanded => 0
    case Expanded(cs) =>
      1 + MaxOf(seq(|cs|, i requires 0 <= i < |cs| => Levels(cs[i])))
  }

  /** Capping every element at `k` caps the maximum at `k`. */
  lemma {:induction false} MaxOfMin(s: seq<nat>, t: seq<nat>, k: nat)
    requires |t| == |s|
    requires forall i :: 0 <= i < |s| ==> t[i] == Min(k, s[i])
    ensures MaxOf(t) == Min(k, MaxOf(s))
  {
    if s != [] {
      MaxOfMin(s[1..], t[1..], k);
    }
  }

  /** A depth of `d >= 0` expands exactly `min(d, Height(n))` levels, and a
      negative depth expands every level of the tree. */
  lemma {:induction false} NodeJsonLevels(n: Node, depth: int)
    ensures Levels(NodeJson(n, depth)) == if depth < 0 then Height(n) else Min(depth, Height(n))
    decreases n
  {
    if depth != 0 {
      var cs := NodeJson(n, depth).children.records;
      var ls := seq(|cs|, i requires 0 <= i < |cs| => Levels(cs[i]));
      var hs := seq(|n.children|, i requires 0 <= i < |n.children| => Height(n.children[i]));
      forall i | 0 <= i < |n.children|
        ensures ls[i] == if depth - 1 < 0 then hs[i] else Min(depth - 1, hs[i])
      {
        assert cs[i] == NodeJson(n.children[i], depth - 1);
        NodeJsonLevels(n.children[i], depth - 1);
      }
      if depth < 0 {
        assert ls == hs;
      } else {
        MaxOfMin(hs, ls, depth - 1);
      }
    }
  }

  /** A depth of at least the tree's height gives the same record as an
      unlimited (negative) depth, and all negative depths agree. */
  lemma {:induction false} DeepEnoughIsUnlimited(n: Node, depth: int, unlimited: int)
    requires depth < 0 || depth >= Height(n)
    requires unlimited < 0
    ensures NodeJson(n, depth) == NodeJson(n, unlimited)
    decreases n
  {
    var a := NodeJson(n, depth).children.records;
    var b := NodeJson(n, unlimited).children.records;
    assert a == b by {
      forall i | 0 <= i < |n.children|
        ensures a[i] == b[i]
      {
        ChildRecord(n, depth, i);
        ChildRecord(n, unlimited, i);
        ChildHeight(n, i);
        DeepEnoughIsUnlimited(n.children[i], depth - 1, unlimited - 1);
      }
    }
    ExpandedRecord(n, depth);
    ExpandedRecord(n, unlimited);
  }

  /** An expanded record is determined by the element and its children's records. */
  lemma ExpandedRecord(n: Node, depth: int)
    requires depth != 0
    ensures NodeJson(n, depth)
         == Record(NodeClass(n), n.text, n.tag, NodeId(n), Expanded(NodeJson(n, depth).children.records))
  {
  }

  /** A child is at least one level lower than its parent. */
  lemma ChildHeight(n: Node, i: nat)
    requires i < |n.children|
    ensures Height(n.children[i]) < Height(n)
  {
    var hs := seq(|n.children|, j requires 0 <= j < |n.children| => Height(n.children[j]));
    assert hs[i] <= MaxOf(hs);
  }

  /** An expanded record holds the records of the children, one level less deep. */
  lemma ChildRecord(n: Node, depth: int, i: nat)
    requires depth != 0 && i < |n.children|
    ensures NodeJson(n, depth).children.records[i] == NodeJson(n.children[i], depth - 1)
  {
  }

  // ---------------------------------------------------------------------
  // Tables
  // ---------------------------------------------------------------------

  /** The normalised text content of every `tag` element of the subtree. */
  function CellTexts(n: Node, tag: string): (r: seq<string>)
    ensures |r| == |Iter(n, tag)|
    ensures forall i :: 0 <= i < |r| ==>
      && IsNormalized(r[i])
      && Split(r[i]) == Split(TextContent(Iter(n, tag)[i]))
  {
    var cells := Iter(n, tag);
    seq(|cells|, i requires 0 <= i < |cells| => Normalize(TextContent(cells[i])))
  }

  /** `get_table_headings`: the normalised text of every `th`, in document order. */
  function TableHeadings(n: Node): (r: seq<string>)
    ensures |r| == |Iter(n, "th")|
    ensures forall i :: 0 <= i < |r| ==>
      && IsNormalized(r[i])
      && Split(r[i]) == Split(TextContent(Iter(n, "th")[i]))
  {
    CellTexts(n, "th")
  }

  /** `get_table_data`: the normalised text of every `td`, in document order. */
  function TableData(n: Node): (r: seq<string>)
    ensures |r| == |Iter(n, "td")|
    ensures forall i :: 0 <= i < |r| ==>
      && IsNormalized(r[i])
      && Split(r[i]) == Split(TextContent(Iter(n, "td")[i]))
  {
    CellTexts(n, "td")
  }

  /** The position of the last occurrence of `h` in `hs`. */
  function LastIndex(hs: seq<string>, h: string): (c: nat)
    requires h in hs
    ensures c < |hs| && hs[c] == h
    ensures forall c' :: c < c' < |hs| ==> hs[c'] != h
  {
    if hs[|hs| - 1] == h then |hs| - 1 else LastIndex(hs[..|hs| - 1], h)
  }

  /** `[row[column] for row in rows]`. */
  function Column(rows: seq<seq<string>>, c: nat): (col: seq<string>)
    requires forall i :: 0 <= i < |rows| ==> c < |rows[i]|
    ensures |col| == |rows|
  {
    seq(|rows|, i requires 0 <= i < |rows| => rows[i][c])
  }

  /** The dictionary after the comprehension has processed the first `k`
      `(column, heading)` pairs: a later pair with the same heading replaces
      the value an earlier one stored. */
  function Enumerate(headings: seq<string>, rows: seq<seq<string>>, k: nat): (m: map<string, seq<string>>)
    requires k <= |headings|
    requires forall i :: 0 <= i < |rows| ==> |rows[i]| == |headings|
    ensures forall h :: h in m <==> h in headings[..k]
    ensures forall h :: h in m ==> m[h] == Column(rows, LastIndex(headings[..k], h))
  {
    if k == 0 then map[]
    else
      var prev := Enumerate(headings, rows, k - 1);
      assert headings[..k] == headings[..k - 1] + [headings[k - 1]];
      assert headings[..k][..k - 1] == headings[..k - 1];
      prev[headings[k - 1] := Column(rows, k - 1)]
  }

  /** `table_json` on given headings and cells: the value under each heading
      is the column of its last occurrence, read from the full rows only. */
  function TableColumns(headings: seq<string>, cells: seq<string>): (m: map<string, seq<string>>)
    ensures forall h :: h in m <==> h in headings
    ensures forall h :: h in m ==> StridedColumn(cells, |headings|, LastIndex(headings, h), m[h])
  {
    var n := |headings|;
    var rows := Chunks(cells, n);
    assert headings[..n] == headings;
    var m := Enumerate(headings, rows, n);
    assert forall h :: h in m ==> StridedColumn(cells, n, LastIndex(headings, h), m[h]) by {
      forall h | h in m ensures StridedColumn(cells, n, LastIndex(headings, h), m[h]) {
        ColumnOfChunks(cells, n, LastIndex(headings, h));
      }
    }
    m
  }

  /** `col` holds the cells at positions `c`, `c + n`, `c + 2n`, ... of the
      full rows of `cells`. */
  predicate StridedColumn(cells: seq<string>, n: nat, c: nat, col: seq<string>)
    requires c < n
  {
    && |col| == |cells| / n
    && forall i :: 0 <= i < |col| ==> i * n + c < |cells| && col[i] == cells[i * n + c]
  }

  /** Column `c` of the rows `chunks` builds is the stride-`n` slice of the
      cells starting at `c`; `row[c]` is always in range. */
  lemma ColumnOfChunks(cells: seq<string>, n: nat, c: nat)
    requires c < n
    ensures StridedColumn(cells, n, c, Column(Chunks(cells, n), c))
  {
    var rows := Chunks(cells, n);
    var col := Column(rows, c);
    ChunksCount(cells, n);
    forall i | 0 <= i < |col|
      ensures i * n + c < |cells| && col[i] == cells[i * n + c]
    {
      ChunkAt(cells, n, i);
      assert rows[i][c] == cells[i * n + c];
    }
  }

  /** `table_json(node)`: one key per `th` heading; under each, the `td`
      cells of the heading's last column, from the full rows only. */
  function TableJson(n: Node): (r: map<string, seq<string>>)
    ensures forall h :: h in r <==> h in TableHeadings(n)
    ensures forall h :: h in r ==>
      StridedColumn(TableData(n), |TableHeadings(n)|, LastIndex(TableHeadings(n), h), r[h])
  {
    TableColumns(TableHeadings(n), TableData(n))
  }

  /** `table_list` on given headings and cells: the headings, then every
      full row of cells, in order; a trailing partial row is dropped. */
  function TableRows(headings: seq<string>, cells: seq<string>): (t: seq<seq<string>>)
    ensures |t| >= 1 && t[0] == headings
    ensures headings == [] ==> t == [[]]
    ensures headings != [] ==> |t| == 1 + |cells| / |headings|
    ensures forall i :: 1 <= i < |t| ==> |t[i]| == |headings|
    ensures Flatten(t[1..]) <= cells
    ensures headings != [] ==> |cells| - |Flatten(t[1..])| < |headings|
  {
    var rows := Chunks(cells, |headings|);
    assert headings != [] ==> |rows| == |cells| / |headings| by {
      if headings != [] {
        ChunksCount(cells, |headings|);
      }
    }
    assert ([headings] + rows)[1..] == rows;
    [headings] + rows
  }

  /** `table_list(node)`: the `th` headings, then the `td` cells in full rows
      of one cell per heading. */
  function TableList(n: Node): (r: seq<seq<string>>)
    ensures |r| >= 1 && r[0] == TableHeadings(n)
    ensures TableHeadings(n) == [] ==> r == [[]]
    ensures TableHeadings(n) != [] ==> |r| == 1 + |TableData(n)| / |TableHeadings(n)|
    ensures forall i :: 1 <= i < |r| ==> |r[i]| == |TableHeadings(n)|
    ensures Flatten(r[1..]) <= TableData(n)
    ensures TableHeadings(n) != [] ==> |TableData(n)| - |Flatten(r[1..])| < |TableHeadings(n)|
  {
    TableRows(TableHeadings(n), TableData(n))
  }

  /** The two table shapes agree: the `i`-th value under a heading is the
      cell of row `i` in the column where that heading last occurs. */
  lemma TableViewsAgree(headings: seq<string>, cells: seq<string>, h: string, i: nat)
    requires h in headings
    requires i < |cells| / |headings|
    ensures i < |TableColumns(headings, cells)[h]|
    ensures TableColumns(headings, cells)[h][i] == TableRows(headings, cells)[i + 1][LastIndex(headings, h)]
  {
    var n := |headings|;
    ChunksCount(cells, n);
    ChunkAt(cells, n, i);
  }

  /** With a repeated heading, the column that occurs later wins: the value
      under the shared key is never the data of an earlier column. */
  lemma DuplicateHeadingKeepsLater(headings: seq<string>, cells: seq<string>, a: nat, b: nat)
    requires a < b < |headings|
    requires headings[a] == headings[b]
    ensures exists c :: b <= c < |headings| && headings[c] == headings[a] &&
                        StridedColumn(cells, |headings|, c, TableColumns(headings, cells)[headings[a]])
  {
    var c := LastIndex(headings, headings[a]);
    assert b <= c;
    assert StridedColumn(cells, |headings|, c, TableColumns(headings, cells)[headings[a]]);
  }

  // ---------------------------------------------------------------------
  // Lists
  // ---------------------------------------------------------------------

  /** One element of the `ul_ol_list` output: the list's name (its id or
      class tokens) or the text of one item. */
  datatype ListEntry = Name(tokens: seq<string>) | Item(text: string)

  /** `get_node_id(node) or get_node_class(node)`, kept only when non-empty. */
  function ListName(n: Node): Option<seq<string>>
  {
    if NodeId(n) != [] then Some(NodeId(n))
    else if NodeClass(n) != [] then Some(NodeClass(n))
    else None
  }

  /** `ul_ol_list(node)`: the name, if the element has a non-blank id or
      class, then the text content of every `li` in document order. */
  function UlOlList(n: Node): (r: seq<ListEntry>)
    ensures var named := !IsBlank(AttrValue(n, "id")) || !IsBlank(AttrValue(n, "class"));
      |r| == |Iter(n, "li")| + (if named then 1 else 0)
    ensures !IsBlank(AttrValue(n, "id")) ==> r[0] == Name(NodeId(n))
    ensures IsBlank(AttrValue(n, "id")) && !IsBlank(AttrValue(n, "class")) ==>
      r[0] == Name(NodeClass(n))
    ensures forall k :: 0 <= k < |Iter(n, "li")| ==>
      r[|r| - |Iter(n, "li")| + k] == Item(TextContent(Iter(n, "li")[k]))
  {
    var items := Iter(n, "li");
    var texts := seq(|items|, k requires 0 <= k < |items| => Item(TextContent(items[k])));
    match ListName(n)
    case Some(name) => [Name(name)] + texts
    case None => texts
  }
}
