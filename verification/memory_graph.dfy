/**
 * The computations behind the memory-graph view: wrapping a memory's text into lines for
 * its node label, the colour-palette lookup, and the assembly of graph nodes and edges from
 * the adjacency document and the record store.
 */
module MemoryGraph {
  import opened Wrappers
  import opened Text
  import opened Models
  import Postgres
  import MongoGraph
  import Seqs

  // ---------------------------------------------------------------------------------------
  // wrap_text

  /** `int(x)` on a quotient: truncation toward zero. */
  function TruncDiv(a: int, b: nat): (q: int)
    requires b > 0
    ensures a >= 0 ==> q == a / b
    ensures a < 0 ==> q == -((-a) / b)
  {
    if a >= 0 then a / b else -((-a) / b)
  }

  /** `max(10, int(node_size / 8))` for an integral node size. */
  function CharWidth(nodeSize: int): (w: nat)
    ensures w >= 10
    ensures w == 10 || w == TruncDiv(nodeSize, 8)
    ensures w >= TruncDiv(nodeSize, 8)
  {
    var q := TruncDiv(nodeSize, 8);
    if q > 10 then q else 10
  }

  /** Length of the run of non-whitespace characters that starts `s`. */
  function WordLength(s: string): (n: nat)
    ensures n <= |s|
    ensures forall j :: 0 <= j < n ==> !IsSpace(s[j])
    ensures n < |s| ==> IsSpace(s[n])
  {
    if s == [] || IsSpace(s[0]) then 0 else 1 + WordLength(s[1..])
  }

  /** `text.split()`: the maximal runs of non-whitespace characters, in order. */
  function Words(s: string): (ws: seq<string>)
    ensures forall i :: 0 <= i < |ws| ==> ws[i] != []
    decreases |s|
  {
    if s == [] then []
    else if IsSpace(s[0]) then Words(s[1..])
    else
      var n := WordLength(s);
      [s[..n]] + Words(s[n..])
  }

  /** The characters of `s` that are not whitespace, in order. */
  function NonSpace(s: string): string {
    if s == [] then [] else (if IsSpace(s[0]) then [] else [s[0]]) + NonSpace(s[1..])
  }

  lemma {:induction false} NonSpaceAppend(a: string, b: string)
    ensures NonSpace(a + b) == NonSpace(a) + NonSpace(b)
    decreases |a|
  {
    if a != [] {
      assert (a + b)[0] == a[0] && (a + b)[1..] == a[1..] + b;
      NonSpaceAppend(a[1..], b);
    } else {
      assert a + b == b;
    }
  }

  lemma {:induction false} NonSpaceOfWord(w: string)
    requires forall j :: 0 <= j < |w| ==> !IsSpace(w[j])
    ensures NonSpace(w) == w
    decreases |w|
  {
    if w != [] {
      NonSpaceOfWord(w[1..]);
    }
  }

  /** Splitting drops exactly the whitespace. */
  lemma {:induction false} WordsKeepText(s: string)
    ensures Concat(Words(s)) == NonSpace(s)
    decreases |s|
  {
    if s != [] {
      if IsSpace(s[0]) {
        WordsKeepText(s[1..]);
      } else {
        var n := WordLength(s);
        WordsKeepText(s[n..]);
        assert s == s[..n] + s[n..];
        NonSpaceAppend(s[..n], s[n..]);
        NonSpaceOfWord(s[..n]);
        var ws := [s[..n]] + Words(s[n..]);
        assert ws[1..] == Words(s[n..]);
      }
    }
  }

  /** Whitespace-only text has no words. */
  lemma {:induction false} WordsOfSpace(s: string)
    requires AllSpace(s)
    ensures Words(s) == []
    decreases |s|
  {
    if s != [] {
      WordsOfSpace(s[1..]);
    }
  }

  /** `[word[i:i + w] for i in range(0, len(word), w)]` */
  function Chunks(word: string, w: nat): (cs: seq<string>)
    requires w > 0
    decreases |word|
  {
    if word == [] then []
    else if |word| <= w then [word]
    else [word[..w]] + Chunks(word[w..], w)
  }

  /** The chunks spell the word, and none is empty or wider than `w`. */
  lemma {:induction false} ChunksSpellWord(word: string, w: nat)
    requires w > 0
    ensures Concat(Chunks(word, w)) == word
    ensures forall i :: 0 <= i < |Chunks(word, w)| ==> 0 < |Chunks(word, w)[i]| <= w
    decreases |word|
  {
    if |word| > w {
      ChunksSpellWord(word[w..], w);
      var cs := [word[..w]] + Chunks(word[w..], w);
      assert cs[1..] == Chunks(word[w..], w);
      assert word == word[..w] + word[w..];
    }
  }

  /** What one word contributes to `processed_words`. */
  function Pieces(word: string, w: nat): seq<string>
    requires w > 0
  {
    if |word| > w then Chunks(word, w) else [word]
  }

  /** `processed_words` after the words `ws`. */
  function Processed(ws: seq<string>, w: nat): seq<string>
    requires w > 0
  {
    if ws == [] then [] else Processed(ws[..|ws| - 1], w) + Pieces(ws[|ws| - 1], w)
  }

  /** Wrapping never cuts a word that fits. */
  lemma PiecesOfShortWord(word: string, w: nat)
    requires w > 0 && |word| <= w
    ensures Pieces(word, w) == [word]
  {
  }

  lemma ConcatSplit(a: seq<string>, b: seq<string>)
    ensures Concat(a + b) == Concat(a) + Concat(b)
    decreases |a|
  {
    if a != [] {
      assert (a + b)[1..] == a[1..] + b;
      ConcatSplit(a[1..], b);
    } else {
      assert a + b == b;
    }
  }

  /** The pieces spell the words, in order, and each piece is 1 to `w` characters long. */
  lemma {:induction false} ProcessedSpellsWords(ws: seq<string>, w: nat)
    requires w > 0
    requires forall i :: 0 <= i < |ws| ==> ws[i] != []
    ensures Concat(Processed(ws, w)) == Concat(ws)
    ensures forall i :: 0 <= i < |Processed(ws, w)| ==> 0 < |Processed(ws, w)[i]| <= w
    decreases |ws|
  {
    if ws != [] {
      var init := ws[..|ws| - 1];
      var last := ws[|ws| - 1];
      ProcessedSpellsWords(init, w);
      ChunksSpellWord(last, w);
      ConcatSplit(Processed(init, w), Pieces(last, w));
      Seqs.LastSplit(ws);
      ConcatAppend(init, last);
      if |last| <= w {
        assert Concat([last]) == last + Concat([]);
      }
    }
  }

  /** `lines` (as word lists), `current_line` and `current_length` of the layout loop. */
  datatype Layout = Layout(lines: seq<seq<string>>, current: seq<string>, length: int)

  /** One round of the layout loop. */
  function Place(st: Layout, word: string, w: nat): Layout {
    if st.length + |word| + 1 <= w then Layout(st.lines, st.current + [word], st.length + |word| + 1)
    else Layout(st.lines + [st.current], [word], |word|)
  }

  /** The layout loop's state after the pieces `ps`. */
  function LayoutOf(ps: seq<string>, w: nat): Layout {
    if ps == [] then Layout([], [], 0) else Place(LayoutOf(ps[..|ps| - 1], w), ps[|ps| - 1], w)
  }

  /** The lines, as word lists, after the last `if current_line` flush. */
  function LineWords(ps: seq<string>, w: nat): seq<seq<string>> {
    var st := LayoutOf(ps, w);
    if st.current != [] then st.lines + [st.current] else st.lines
  }

  /** `' '.join(line)` for each line. */
  function Render(ls: seq<seq<string>>): (r: seq<string>)
    ensures |r| == |ls| && forall i :: 0 <= i < |ls| ==> r[i] == Join(" ", ls[i])
  {
    seq(|ls|, i requires 0 <= i < |ls| => Join(" ", ls[i]))
  }

  /** The label `wrap_text` returns. */
  function Wrapped(text: string, nodeSize: int): string {
    var w := CharWidth(nodeSize);
    Join("<br>", Render(LineWords(Processed(Words(text), w), w)))
  }

  /** The word lists of several lines, read in order. */
  function Flatten(ls: seq<seq<string>>): seq<string> {
    if ls == [] then [] else Flatten(ls[..|ls| - 1]) + ls[|ls| - 1]
  }

  lemma FlattenSnoc(ls: seq<seq<string>>, l: seq<string>)
    ensures Flatten(ls + [l]) == Flatten(ls) + l
  {
    assert (ls + [l])[..|ls|] == ls;
  }

  /** One round of the layout loop keeps every piece placed so far, and adds the new one. */
  lemma PlaceKeeps(st: Layout, word: string, w: nat, done: seq<string>)
    requires Flatten(st.lines) + st.current == done
    ensures Flatten(Place(st, word, w).lines) + Place(st, word, w).current == done + [word]
  {
    var f := Flatten(st.lines);
    if st.length + |word| + 1 <= w {
      assert f + (st.current + [word]) == (f + st.current) + [word];
    } else {
      FlattenSnoc(st.lines, st.current);
      assert (f + st.current) + [word] == done + [word];
    }
  }

  /** The layout loop keeps every piece: lines and current line together hold them in order. */
  lemma {:induction false} LayoutKeepsPieces(ps: seq<string>, w: nat)
    ensures Flatten(LayoutOf(ps, w).lines) + LayoutOf(ps, w).current == ps
    decreases |ps|
  {
    if ps != [] {
      var init := ps[..|ps| - 1];
      var word := ps[|ps| - 1];
      LayoutKeepsPieces(init, w);
      PlaceKeeps(LayoutOf(init, w), word, w, init);
      Seqs.LastSplit(ps);
    }
  }

  /** No piece is dropped: the lines, read in order, hold all pieces in order. */
  lemma LineWordsKeepPieces(ps: seq<string>, w: nat)
    ensures Flatten(LineWords(ps, w)) == ps
  {
    LayoutKeepsPieces(ps, w);
    var st := LayoutOf(ps, w);
    if st.current != [] {
      FlattenSnoc(st.lines, st.current);
    } else {
      assert Flatten(st.lines) + [] == Flatten(st.lines);
    }
  }

  lemma {:induction false} JoinSnoc(sep: string, parts: seq<string>, x: string)
    ensures |Join(sep, parts + [x])| == if parts == [] then |x| else |Join(sep, parts)| + |sep| + |x|
    decreases |parts|
  {
    if |parts| == 1 {
      assert parts + [x] == [parts[0], x];
      assert [parts[0], x][1..] == [x];
    } else if |parts| > 1 {
      JoinSnoc(sep, parts[1..], x);
      assert (parts + [x])[1..] == parts[1..] + [x];
    }
  }

  /** The width invariant of the layout loop when every piece fits in `w`. */
  predicate Fits(st: Layout, w: nat) {
    (forall i :: 0 <= i < |st.lines| ==> |Join(" ", st.lines[i])| <= w)
    && |Join(" ", st.current)| <= st.length <= w
  }

  lemma {:induction false} LayoutFits(ps: seq<string>, w: nat)
    requires forall i :: 0 <= i < |ps| ==> |ps[i]| <= w
    ensures Fits(LayoutOf(ps, w), w)
    decreases |ps|
  {
    if ps != [] {
      var init := ps[..|ps| - 1];
      var word := ps[|ps| - 1];
      LayoutFits(init, w);
      var st := LayoutOf(init, w);
      JoinSnoc(" ", st.current, word);
      if st.length + |word| + 1 > w {
        assert Join(" ", [word]) == word;
        assert (st.lines + [st.current])[|st.lines|] == st.current;
      }
    }
  }

  /** No line is longer than `w` when no piece is. */
  lemma LinesFit(ps: seq<string>, w: nat)
    requires forall i :: 0 <= i < |ps| ==> |ps[i]| <= w
    ensures forall i :: 0 <= i < |LineWords(ps, w)| ==> |Render(LineWords(ps, w))[i]| <= w
  {
    LayoutFits(ps, w);
  }

  /** A first piece as wide as the line leaves the first line empty. */
  lemma {:induction false} FirstLineEmptyState(ps: seq<string>, w: nat)
    requires ps != [] && |ps[0]| >= w
    ensures LayoutOf(ps, w).lines != [] && LayoutOf(ps, w).lines[0] == []
    decreases |ps|
  {
    if |ps| > 1 {
      var init := ps[..|ps| - 1];
      assert init[0] == ps[0];
      FirstLineEmptyState(init, w);
    } else {
      assert ps[..0] == [];
    }
  }

  lemma FirstLineEmpty(ps: seq<string>, w: nat)
    requires ps != [] && |ps[0]| >= w
    ensures LineWords(ps, w) != [] && Render(LineWords(ps, w))[0] == ""
  {
    FirstLineEmptyState(ps, w);
  }

  /** `wrap_text` keeps every non-whitespace character, in order ("without truncation"). */
  lemma WrappedKeepsText(text: string, w: nat)
    requires w > 0
    ensures Concat(Flatten(LineWords(Processed(Words(text), w), w))) == NonSpace(text)
  {
    var ps := Processed(Words(text), w);
    LineWordsKeepPieces(ps, w);
    ProcessedSpellsWords(Words(text), w);
    WordsKeepText(text);
  }

  /** Every line of the label is at most `char_width` characters wide. */
  lemma WrappedLinesFit(text: string, w: nat)
    requires w > 0
    ensures forall i :: 0 <= i < |LineWords(Processed(Words(text), w), w)| ==>
              |Render(LineWords(Processed(Words(text), w), w))[i]| <= w
  {
    ProcessedSpellsWords(Words(text), w);
    LinesFit(Processed(Words(text), w), w);
  }

  /** Empty or whitespace-only text gives an empty label. */
  lemma WrappedOfSpace(text: string, nodeSize: int)
    requires AllSpace(text)
    ensures Wrapped(text, nodeSize) == ""
  {
    WordsOfSpace(text);
  }

  /** The loop that builds `processed_words`. */
  method ProcessWords(words: seq<string>, w: nat) returns (processed: seq<string>)
    requires w > 0
    ensures processed == Processed(words, w)
  {
    processed := [];
    for i := 0 to |words|
      invariant processed == Processed(words[..i], w)
    {
      var word := words[i];
      assert words[..i + 1][..i] == words[..i];
      if |word| > w {
        var parts := Chunks(word, w);
        processed := processed + parts;
      } else {
        processed := processed + [word];
      }
    }
    assert words[..|words|] == words;
  }

  /** The loop that fills `lines`, and the final flush of `current_line`. */
  method LayLines(ps: seq<string>, w: nat) returns (lines: seq<string>)
    ensures lines == Render(LineWords(ps, w))
  {
    lines := [];
    var currentLine: seq<string> := [];
    var currentLength := 0;
    for i := 0 to |ps|
      invariant lines == Render(LayoutOf(ps[..i], w).lines)
      invariant currentLine == LayoutOf(ps[..i], w).current
      invariant currentLength == LayoutOf(ps[..i], w).length
    {
      var word := ps[i];
      assert ps[..i + 1][..i] == ps[..i];
      if currentLength + |word| + 1 <= w {
        currentLine := currentLine + [word];
        currentLength := currentLength + |word| + 1;
      } else {
        lines := lines + [Join(" ", currentLine)];
        currentLine := [word];
        currentLength := |word|;
      }
    }
    assert ps[..|ps|] == ps;
    if currentLine != [] {
      lines := lines + [Join(" ", currentLine)];
    }
  }

  /** `wrap_text(text, node_size)` */
  method WrapText(text: string, nodeSize: int) returns (r: string)
    ensures r == Wrapped(text, nodeSize)
  {
    var charWidth := CharWidth(nodeSize);
    var words := Words(text);
    var processed := ProcessWords(words, charWidth);
    var lines := LayLines(processed, charWidth);
    r := Join("<br>", lines);
  }

  // ---------------------------------------------------------------------------------------
  // create_color_palette

  datatype Rgb = Rgb(r: nat, g: nat, b: nat)

  const DefaultScheme: string := "Blue to Purple"

  const Palettes: map<string, (Rgb, Rgb)> := map[
    "Blue to Purple" := (Rgb(100, 149, 237), Rgb(147, 112, 219)),
    "Ocean" := (Rgb(0, 119, 190), Rgb(0, 180, 216)),
    "Forest" := (Rgb(34, 139, 34), Rgb(154, 205, 50)),
    "Sunset" := (Rgb(255, 127, 80), Rgb(255, 99, 71)),
    "Neon" := (Rgb(0, 255, 255), Rgb(255, 0, 255))
  ]

  /** `palettes.get(color_scheme, palettes["Blue to Purple"])` */
  function Palette(scheme: string): (p: (Rgb, Rgb))
    ensures scheme in Palettes ==> p == Palettes[scheme]
    ensures scheme !in Palettes ==> p == Palettes[DefaultScheme]
    ensures p in Palettes.Values
  {
    if scheme in Palettes then Palettes[scheme] else Palettes[DefaultScheme]
  }

  /** The five schemes offered in the sidebar each have their own palette. */
  lemma PalettesDistinct(s: string, t: string)
    requires s in Palettes && t in Palettes && s != t
    ensures Palette(s) != Palette(t)
  {
  }

  /** Only an unknown scheme and "Blue to Purple" itself give the default palette. */
  lemma DefaultPaletteOnlyFallback(scheme: string)
    ensures Palette(scheme) == Palettes[DefaultScheme] <==> scheme == DefaultScheme || scheme !in Palettes
  {
    if scheme in Palettes && scheme != DefaultScheme {
      PalettesDistinct(scheme, DefaultScheme);
    }
  }

  // ---------------------------------------------------------------------------------------
  // Graph assembly in show_memory_graph

  /** A graph node with its label text and connection count. */
  datatype GraphNode = GraphNode(text: string, connections: nat)

  /** The assembled graph: nodes by id, and the edges in the order-free form `add_edge` leaves. */
  datatype Graph = Graph(nodes: map<Key, GraphNode>, edges: set<(Key, Key)>)

  /** `nodes_dict`: each adjacency entry's list length. */
  function ConnectionCounts(adj: MongoGraph.Adjacency): (counts: map<string, nat>)
    ensures counts.Keys == adj.Keys
    ensures forall u :: u in adj ==> counts[u] == |adj[u]|
  {
    map u | u in adj :: |adj[u]|
  }

  /** `nodes_dict.get(node.id, 0)`: field names are strings, so only a string id can match. */
  function ConnectionCount(counts: map<string, nat>, id: Key): nat {
    if id.Str? && id.s in counts then counts[id.s] else 0
  }

  /** The edge pass: an edge for each listed neighbour, when both ends are graph nodes. */
  function Edges(adj: MongoGraph.Adjacency, nodes: map<Key, GraphNode>): (es: set<(Key, Key)>)
    ensures forall e :: e in es <==>
              e.0.Str? && e.0.s in adj && e.1 in adj[e.0.s] && e.0 in nodes && e.1 in nodes
  {
    set u, t | u in adj && t in adj[u] && Str(u) in nodes && t in nodes :: (Str(u), t)
  }

  /** The node pass over the record store's rows: rows whose details cannot be read are skipped. */
  method AddNodes(counts: map<string, nat>, dbNodes: seq<Key>, store: Postgres.RecordStore)
    returns (nodes: map<Key, GraphNode>)
    ensures forall k :: k in nodes <==> k in dbNodes && store.GetMemoryDetails(k).Ok?
    ensures forall k :: k in nodes ==>
              nodes[k] == GraphNode(store.GetMemoryDetails(k).value.content, ConnectionCount(counts, k))
  {
    nodes := map[];
    for i := 0 to |dbNodes|
      invariant forall k :: k in nodes <==> k in dbNodes[..i] && store.GetMemoryDetails(k).Ok?
      invariant forall k :: k in nodes ==>
                  nodes[k] == GraphNode(store.GetMemoryDetails(k).value.content, ConnectionCount(counts, k))
    {
      var id := dbNodes[i];
      assert dbNodes[..i + 1] == dbNodes[..i] + [id];
      var memory := store.GetMemoryDetails(id);
      if memory.Ok? {
        nodes := nodes[id := GraphNode(memory.value.content, ConnectionCount(counts, id))];
      }
    }
    assert dbNodes[..|dbNodes|] == dbNodes;
  }

  /** The graph assembly of `show_memory_graph`: connection counts, nodes, then edges. */
  method AssembleGraph(adj: MongoGraph.Adjacency, dbNodes: seq<Key>, store: Postgres.RecordStore)
    returns (g: Graph)
    ensures g.nodes.Keys == set k | k in dbNodes && store.GetMemoryDetails(k).Ok?
    ensures g.edges == Edges(adj, g.nodes)
    ensures forall k :: k in g.nodes ==>
              g.nodes[k] == GraphNode(store.GetMemoryDetails(k).value.content,
                                      ConnectionCount(ConnectionCounts(adj), k))
  {
    var counts := ConnectionCounts(adj);
    var nodes := AddNodes(counts, dbNodes, store);
    g := Graph(nodes, Edges(adj, nodes));
  }

  /** Every edge joins two graph nodes, i.e. two ids the record store could read. */
  lemma EdgesWithinNodes(adj: MongoGraph.Adjacency, nodes: map<Key, GraphNode>, e: (Key, Key))
    requires e in Edges(adj, nodes)
    ensures e.0 in nodes && e.1 in nodes
  {
  }

  /**
   * A node's connection count is the length of its adjacency list, and 0 when the adjacency
   * has no entry for it (always so for an integer id).
   */
  lemma ConnectionCountIsListLength(adj: MongoGraph.Adjacency, id: Key)
    ensures id.Str? && id.s in adj ==> ConnectionCount(ConnectionCounts(adj), id) == |adj[id.s]|
    ensures !(id.Str? && id.s in adj) ==> ConnectionCount(ConnectionCounts(adj), id) == 0
  {
  }

  /** Every row of a consistent record store becomes a node. */
  lemma StoredRowsBecomeNodes(store: Postgres.RecordStore, k: Key)
    requires store.Valid() && k in store.nodes
    ensures store.GetMemoryDetails(k).Ok?
    ensures store.GetMemoryDetails(k).value.content == store.nodes[k].text
  {
  }
}
