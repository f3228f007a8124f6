/**
 * build_graph of scripts/entity_cluster.py followed by its clustering: entities share a
 * cluster exactly if a chain of frequently co-occurring pairs joins them.
 */
module CooccurrenceGraph {
  import opened EntityClusters

  type Window = seq<Entity>
  type Pair = set<Entity>

  /** itertools.combinations(set(w), 2), as unordered pairs. */
  function Pairs(w: Window): set<Pair> {
    set a, b | a in w && b in w && a != b :: {a, b}
  }

  /** The number of windows that contribute the pair. */
  ghost function Weight(windows: seq<Window>, p: Pair): nat {
    if windows == [] then 0
    else Weight(windows[..|windows| - 1], p) + if p in Pairs(windows[|windows| - 1]) then 1 else 0
  }

  lemma PairInWindow(w: Window, a: Entity, b: Entity)
    requires a != b
    ensures {a, b} in Pairs(w) <==> a in w && b in w
  {
    if {a, b} in Pairs(w) {
      var x, y :| x in w && y in w && x != y && {a, b} == {x, y};
      assert a in {x, y} && b in {x, y};
    }
  }

  /** The number of windows that contain both entities. */
  ghost function Together(windows: seq<Window>, a: Entity, b: Entity): nat {
    if windows == [] then 0
    else
      var w := windows[|windows| - 1];
      Together(windows[..|windows| - 1], a, b) + if a in w && b in w then 1 else 0
  }

  /** A pair of different entities is counted once per window that contains both. */
  lemma {:induction false} WeightIsTogether(windows: seq<Window>, a: Entity, b: Entity)
    requires a != b
    ensures Weight(windows, {a, b}) == Together(windows, a, b)
  {
    if windows != [] {
      WeightIsTogether(windows[..|windows| - 1], a, b);
      PairInWindow(windows[|windows| - 1], a, b);
    }
  }

  /** The count of a pair; a missing entry counts nothing. */
  ghost function CountOf(counts: map<Pair, nat>, p: Pair): nat {
    if p in counts then counts[p] else 0
  }

  /** One file: every pair gains the number of windows of the file that contain both entities. */
  method CountPairs(before: map<Pair, nat>, windows: seq<Window>) returns (counts: map<Pair, nat>)
    requires forall p :: p in before ==> before[p] > 0
    ensures forall p :: p in counts ==> counts[p] > 0
    ensures forall p :: CountOf(counts, p) == CountOf(before, p) + Weight(windows, p)
    ensures forall a, b :: a != b ==> CountOf(counts, {a, b}) == CountOf(before, {a, b}) + Together(windows, a, b)
  {
    counts := before;
    for i := 0 to |windows|
      invariant forall p :: p in counts ==> counts[p] > 0
      invariant forall p :: CountOf(counts, p) == CountOf(before, p) + Weight(windows[..i], p)
    {
      hide Pairs;
      assert windows[..i + 1][..i] == windows[..i];
      ghost var was := counts;
      var all := Pairs(windows[i]);
      var todo := all;
      while todo != {}
        invariant todo <= all
        invariant forall p :: p in counts ==> counts[p] > 0
        invariant forall p :: CountOf(counts, p) == CountOf(was, p) + if p in all - todo then 1 else 0
        decreases |todo|
      {
        var p :| p in todo;
        counts := counts[p := (if p in counts then counts[p] else 0) + 1];
        todo := todo - {p};
      }
    }
    assert windows[..|windows|] == windows;
    forall a, b | a != b ensures Weight(windows, {a, b}) == Together(windows, a, b) {
      WeightIsTogether(windows, a, b);
    }
  }

  // ----- All files -----

  type Corpus = seq<(string, seq<Window>)>

  /** The number of windows of all files that contain both entities. */
  ghost function TogetherIn(corpus: Corpus, a: Entity, b: Entity): nat {
    if corpus == [] then 0
    else TogetherIn(corpus[..|corpus| - 1], a, b) + Together(corpus[|corpus| - 1].1, a, b)
  }

  /** File and position of the windows of the first n files that contain both entities. */
  ghost function Places(corpus: Corpus, n: nat, a: Entity, b: Entity): set<(nat, nat)>
    requires n <= |corpus|
  {
    set i: nat, k: nat | i < n && k < |corpus[i].1| && a in corpus[i].1[k] && b in corpus[i].1[k] :: (i, k)
  }

  /** The weight of a pair over a corpus is the number of its places, each window of each file counting once. */
  lemma {:induction false} WeightCountsPlaces(corpus: Corpus, n: nat, a: Entity, b: Entity)
    requires n <= |corpus|
    ensures TogetherIn(corpus[..n], a, b) == |Places(corpus, n, a, b)|
  {
    if n > 0 {
      WeightCountsPlaces(corpus, n - 1, a, b);
      assert corpus[..n][..n - 1] == corpus[..n - 1];
      var file := corpus[n - 1].1;
      assert file[..|file|] == file;
      hide Together, Places, InFile;
      FilePlaces(file, n - 1, |file|, a, b);
      NextFile(corpus, n, a, b);
    }
  }

  lemma NextFile(corpus: Corpus, n: nat, a: Entity, b: Entity)
    requires 0 < n <= |corpus|
    ensures var file := corpus[n - 1].1;
      |Places(corpus, n, a, b)| == |Places(corpus, n - 1, a, b)| + |InFile(file, n - 1, |file|, a, b)|
  {
    var file := corpus[n - 1].1;
    var own := InFile(file, n - 1, |file|, a, b);
    assert Places(corpus, n, a, b) == Places(corpus, n - 1, a, b) + own;
    assert Places(corpus, n - 1, a, b) !! own;
  }

  ghost function InFile(file: seq<Window>, i: nat, m: nat, a: Entity, b: Entity): set<(nat, nat)>
    requires m <= |file|
  {
    set k: nat | k < m && a in file[k] && b in file[k] :: (i, k)
  }

  lemma NextPlace(file: seq<Window>, i: nat, m: nat, a: Entity, b: Entity)
    requires 0 < m <= |file|
    ensures var n := |InFile(file, i, m - 1, a, b)|;
      |InFile(file, i, m, a, b)| == if a in file[m - 1] && b in file[m - 1] then n + 1 else n
  {
    var last: set<(nat, nat)> := if a in file[m - 1] && b in file[m - 1] then {(i, m - 1)} else {};
    assert InFile(file, i, m, a, b) == InFile(file, i, m - 1, a, b) + last;
  }

  lemma {:induction false} FilePlaces(file: seq<Window>, i: nat, m: nat, a: Entity, b: Entity)
    requires m <= |file|
    ensures Together(file[..m], a, b) == |InFile(file, i, m, a, b)|
  {
    if m > 0 {
      hide InFile;
      FilePlaces(file, i, m - 1, a, b);
      assert file[..m][..m - 1] == file[..m - 1];
      NextPlace(file, i, m, a, b);
    }
  }

  // ----- Documents of an entity -----

  type DocCounts = map<Entity, set<string>>

  ghost predicate Occurs(corpus: Corpus, file: string, e: Entity) {
    exists i, k :: 0 <= i < |corpus| && 0 <= k < |corpus[i].1| && corpus[i].0 == file && e in corpus[i].1[k]
  }

  /** The files listed for an entity. */
  ghost function FilesOf(docs: DocCounts, e: Entity): set<string> {
    if e in docs then docs[e] else {}
  }

  /** node_doc_counts[ent].add(fname) for every entity of a window. */
  method AddWindow(docs: DocCounts, file: string, w: Window) returns (r: DocCounts)
    ensures forall e :: FilesOf(r, e) == FilesOf(docs, e) + if e in w then {file} else {}
    ensures forall e :: e in r <==> e in docs || e in w
  {
    r := docs;
    for i := 0 to |w|
      invariant forall e :: FilesOf(r, e) == FilesOf(docs, e) + if e in w[..i] then {file} else {}
      invariant forall e :: e in r <==> e in docs || e in w[..i]
    {
      r := r[w[i] := (if w[i] in r then r[w[i]] else {}) + {file}];
      assert w[..i + 1] == w[..i] + [w[i]];
    }
    assert w[..|w|] == w;
  }

  ghost predicate InWindows(windows: seq<Window>, e: Entity) {
    exists k :: 0 <= k < |windows| && e in windows[k]
  }

  method AddFile(docs: DocCounts, file: string, windows: seq<Window>) returns (r: DocCounts)
    ensures forall e :: FilesOf(r, e) == FilesOf(docs, e) + if InWindows(windows, e) then {file} else {}
    ensures forall e :: e in r <==> e in docs || InWindows(windows, e)
  {
    r := docs;
    for k := 0 to |windows|
      invariant forall e :: FilesOf(r, e) == FilesOf(docs, e) + if InWindows(windows[..k], e) then {file} else {}
      invariant forall e :: e in r <==> e in docs || InWindows(windows[..k], e)
    {
      forall e ensures InWindows(windows[..k + 1], e) <==> InWindows(windows[..k], e) || e in windows[k] {
        InWindowsSnoc(windows, k, e);
      }
      hide InWindows, FilesOf;
      r := AddWindow(r, file, windows[k]);
    }
    assert windows[..|windows|] == windows;
  }

  lemma InWindowsSnoc(windows: seq<Window>, k: nat, e: Entity)
    requires k < |windows|
    ensures InWindows(windows[..k + 1], e) <==> InWindows(windows[..k], e) || e in windows[k]
  {
    var next, now := windows[..k + 1], windows[..k];
    if i :| 0 <= i < |next| && e in next[i] {
      assert i == k || now[i] == next[i];
    }
    if i :| 0 <= i < |now| && e in now[i] {
      assert next[i] == now[i];
    }
    if e in windows[k] {
      assert next[k] == windows[k];
    }
  }

  /** Exactly the occurring entities are listed, each with the files in which it occurs. */
  ghost predicate Documented(docs: DocCounts, corpus: Corpus) {
    && (forall e :: e in docs ==> docs[e] != {})
    && forall e, file :: file in FilesOf(docs, e) <==> Occurs(corpus, file, e)
  }

  /** The second result of build_graph: the files in which each entity occurs. */
  method CountDocs(corpus: Corpus) returns (docs: DocCounts)
    ensures forall e :: e in docs <==> exists file :: Occurs(corpus, file, e)
    ensures forall e, file :: e in docs ==> (file in docs[e] <==> Occurs(corpus, file, e))
  {
    docs := map[];
    assert Documented(docs, corpus[..0]);
    for i := 0 to |corpus|
      invariant Documented(docs, corpus[..i])
    {
      hide Documented, InWindows, FilesOf;
      ghost var before := docs;
      docs := AddFile(docs, corpus[i].0, corpus[i].1);
      FileDocumented(before, docs, corpus, i);
    }
    assert corpus[..|corpus|] == corpus;
    DocumentsOf(docs, corpus);
  }

  lemma FileDocumented(before: DocCounts, after: DocCounts, corpus: Corpus, n: nat)
    requires n < |corpus| && Documented(before, corpus[..n])
    requires forall e :: FilesOf(after, e) == FilesOf(before, e) + if InWindows(corpus[n].1, e) then {corpus[n].0} else {}
    requires forall e :: e in after <==> e in before || InWindows(corpus[n].1, e)
    ensures Documented(after, corpus[..n + 1])
  {
    hide Occurs, InWindows;
    forall e, file ensures file in FilesOf(after, e) <==> Occurs(corpus[..n + 1], file, e) {
      OccursSnoc(corpus, n, file, e);
    }
    forall e | e in after ensures after[e] != {} {
      assert after[e] == FilesOf(after, e);
      assert e in before ==> before[e] == FilesOf(before, e);
    }
  }

  lemma DocumentsOf(docs: DocCounts, corpus: Corpus)
    requires Documented(docs, corpus)
    ensures forall e :: e in docs <==> exists file :: Occurs(corpus, file, e)
    ensures forall e, file :: e in docs ==> (file in docs[e] <==> Occurs(corpus, file, e))
  {
    hide Occurs;
    assert forall e :: e in docs ==> docs[e] == FilesOf(docs, e);
    forall e | e in docs ensures exists file :: Occurs(corpus, file, e) {
      var file :| file in docs[e];
      assert Occurs(corpus, file, e);
    }
    forall e | exists file :: Occurs(corpus, file, e) ensures e in docs {
      var file :| Occurs(corpus, file, e);
      assert file in FilesOf(docs, e);
    }
  }

  lemma OccursSnoc(corpus: Corpus, n: nat, file: string, e: Entity)
    requires n < |corpus|
    ensures Occurs(corpus[..n + 1], file, e) <==>
      Occurs(corpus[..n], file, e) || (file == corpus[n].0 && InWindows(corpus[n].1, e))
  {
    var next, now := corpus[..n + 1], corpus[..n];
    if i, k :| 0 <= i < |next| && 0 <= k < |next[i].1| && next[i].0 == file && e in next[i].1[k] {
      assert i == n || now[i] == next[i];
    }
    if i, k :| 0 <= i < |now| && 0 <= k < |now[i].1| && now[i].0 == file && e in now[i].1[k] {
      assert next[i] == now[i];
    }
    if file == corpus[n].0 && InWindows(corpus[n].1, e) {
      assert next[n] == corpus[n];
    }
  }

  /** The number of windows of all files that contribute the pair. */
  ghost function WeightIn(corpus: Corpus, p: Pair): nat {
    if corpus == [] then 0
    else WeightIn(corpus[..|corpus| - 1], p) + Weight(corpus[|corpus| - 1].1, p)
  }

  lemma {:induction false} WeightInIsTogether(corpus: Corpus, a: Entity, b: Entity)
    requires a != b
    ensures WeightIn(corpus, {a, b}) == TogetherIn(corpus, a, b)
  {
    if corpus != [] {
      WeightInIsTogether(corpus[..|corpus| - 1], a, b);
      WeightIsTogether(corpus[|corpus| - 1].1, a, b);
    }
  }

  lemma {:induction false} WeighedInIsPair(corpus: Corpus, p: Pair)
    requires WeightIn(corpus, p) > 0
    ensures exists a, b :: a != b && p == {a, b}
  {
    if Weight(corpus[|corpus| - 1].1, p) > 0 {
      WeighedIsPair(corpus[|corpus| - 1].1, p);
    } else {
      WeighedInIsPair(corpus[..|corpus| - 1], p);
    }
  }

  /** build_graph: pairs below the minimum weight are pruned; the document counts are not. */
  method BuildGraph(corpus: Corpus, minWeight: int) returns (edges: map<Pair, nat>, docs: DocCounts)
    ensures forall p :: p in edges ==> exists a, b :: a != b && p == {a, b}
    ensures forall a, b :: a != b ==>
      ({a, b} in edges <==> TogetherIn(corpus, a, b) > 0 && TogetherIn(corpus, a, b) >= minWeight)
    ensures forall a, b :: a != b && {a, b} in edges ==> edges[{a, b}] == TogetherIn(corpus, a, b)
    ensures forall e :: e in docs <==> exists file :: Occurs(corpus, file, e)
    ensures forall e, file :: e in docs ==> (file in docs[e] <==> Occurs(corpus, file, e))
  {
    hide Occurs, Pairs, Weight, Together;
    var counts: map<Pair, nat> := map[];
    for i := 0 to |corpus|
      invariant forall p :: p in counts ==> counts[p] > 0
      invariant forall p :: CountOf(counts, p) == WeightIn(corpus[..i], p)
    {
      assert corpus[..i + 1][..i] == corpus[..i];
      counts := CountPairs(counts, corpus[i].1);
    }
    assert corpus[..|corpus|] == corpus;
    edges := map p | p in counts && counts[p] >= minWeight :: counts[p];
    forall p | p in edges ensures exists a, b :: a != b && p == {a, b} {
      assert CountOf(counts, p) > 0;
      WeighedInIsPair(corpus, p);
    }
    forall a, b | a != b ensures CountOf(counts, {a, b}) == TogetherIn(corpus, a, b) {
      WeightInIsTogether(corpus, a, b);
    }
    docs := CountDocs(corpus);
  }

  lemma {:induction false} WeighedIsPair(windows: seq<Window>, p: Pair)
    requires Weight(windows, p) > 0
    ensures exists a, b :: a != b && p == {a, b}
  {
    if p in Pairs(windows[|windows| - 1]) {
      var a, b :| a in windows[|windows| - 1] && b in windows[|windows| - 1] && a != b && p == {a, b};
    } else {
      WeighedIsPair(windows[..|windows| - 1], p);
    }
  }

  /** tuple(pair): the two members in either order. */
  method Unpack(p: Pair) returns (e: Edge)
    requires exists a, b :: a != b && p == {a, b}
    ensures e.0 != e.1 && p == {e.0, e.1}
  {
    ghost var x, y :| x != y && p == {x, y};
    assert x in p;
    var a :| a in p;
    assert (if a == x then y else x) in p - {a};
    var b :| b in p - {a};
    e := (a, b);
  }

  method EdgeList(pairs: set<Pair>) returns (list: seq<Edge>)
    requires forall p :: p in pairs ==> exists a, b :: a != b && p == {a, b}
    ensures forall e :: e in list ==> e.0 != e.1 && {e.0, e.1} in pairs
    ensures forall a, b :: a != b && {a, b} in pairs ==> Adjacent(list, a, b)
  {
    list := [];
    var todo := pairs;
    while todo != {}
      invariant todo <= pairs
      invariant forall e :: e in list ==> e.0 != e.1 && {e.0, e.1} in pairs
      invariant forall a, b :: a != b && {a, b} in pairs && {a, b} !in todo ==> Adjacent(list, a, b)
      decreases |todo|
    {
      var p :| p in todo;
      todo := todo - {p};
      var e := Unpack(p);
      ghost var before := list;
      list := list + [e];
      forall a, b | a != b && {a, b} in pairs && {a, b} !in todo ensures Adjacent(list, a, b) {
        if {a, b} == p {
          SamePair(a, b, e);
        } else {
          assert Adjacent(before, a, b);
        }
      }
    }
  }

  lemma SamePair(a: Entity, b: Entity, e: Edge)
    requires a != b && {a, b} == {e.0, e.1}
    ensures e == (a, b) || e == (b, a)
  {
    assert a in {e.0, e.1} && b in {e.0, e.1};
    assert e.0 in {a, b} && e.1 in {a, b};
  }

  // ----- Chains of co-occurrences -----

  /** The two entities occur together in enough windows, and in at least one. */
  ghost predicate Cooccur(corpus: Corpus, minWeight: int, a: Entity, b: Entity) {
    a != b && TogetherIn(corpus, a, b) > 0 && TogetherIn(corpus, a, b) >= minWeight
  }

  ghost predicate HasPartner(corpus: Corpus, minWeight: int, a: Entity) {
    exists b :: Cooccur(corpus, minWeight, a, b)
  }

  ghost predicate IsChain(corpus: Corpus, minWeight: int, p: seq<Entity>, a: Entity, b: Entity) {
    && p != [] && p[0] == a && p[|p| - 1] == b
    && forall i :: 0 <= i < |p| - 1 ==> Cooccur(corpus, minWeight, p[i], p[i + 1])
  }

  ghost predicate Chained(corpus: Corpus, minWeight: int, a: Entity, b: Entity) {
    exists p :: IsChain(corpus, minWeight, p, a, b)
  }

  /** The edge list has an edge exactly for the pairs that co-occur often enough. */
  ghost predicate Faithful(list: seq<Edge>, corpus: Corpus, minWeight: int) {
    forall a, b :: Adjacent(list, a, b) <==> Cooccur(corpus, minWeight, a, b)
  }

  lemma ChainsArePaths(list: seq<Edge>, corpus: Corpus, minWeight: int, a: Entity, b: Entity)
    requires Faithful(list, corpus, minWeight)
    ensures Connected(list, a, b) <==> Chained(corpus, minWeight, a, b)
  {
    hide Adjacent, Cooccur;
    if Connected(list, a, b) {
      var p :| IsPath(list, p, a, b);
      assert IsChain(corpus, minWeight, p, a, b);
    }
    if Chained(corpus, minWeight, a, b) {
      var p :| IsChain(corpus, minWeight, p, a, b);
      assert IsPath(list, p, a, b);
    }
  }

  /** Two entities of the pruned graph share a cluster exactly if a co-occurrence chain joins them. */
  method ClusterCorpus(corpus: Corpus, minWeight: int) returns (clusters: map<Entity, nat>)
    ensures forall a :: a in clusters <==> HasPartner(corpus, minWeight, a)
    ensures forall a, b :: a in clusters && b in clusters ==>
      (clusters[a] == clusters[b] <==> Chained(corpus, minWeight, a, b))
  {
    hide Cooccur, HasPartner, Connected, Chained, Nodes, Occurs;
    var edges, docs := BuildGraph(corpus, minWeight);
    var list := EdgeList(edges.Keys);
    ListIsFaithful(list, edges, corpus, minWeight);
    ghost var k;
    clusters, k := ConnectedComponents(list);
    NodesCooccur(list, corpus, minWeight);
    forall a ensures a in clusters <==> HasPartner(corpus, minWeight, a) {
      assert a in clusters <==> a in Nodes(list);
    }
    forall a, b | a in clusters && b in clusters
      ensures clusters[a] == clusters[b] <==> Chained(corpus, minWeight, a, b)
    {
      ChainsArePaths(list, corpus, minWeight, a, b);
    }
  }

  lemma ListIsFaithful(list: seq<Edge>, edges: map<Pair, nat>, corpus: Corpus, minWeight: int)
    requires forall a, b :: a != b ==>
      ({a, b} in edges <==> TogetherIn(corpus, a, b) > 0 && TogetherIn(corpus, a, b) >= minWeight)
    requires forall e :: e in list ==> e.0 != e.1 && {e.0, e.1} in edges
    requires forall a, b :: a != b && {a, b} in edges ==> Adjacent(list, a, b)
    ensures Faithful(list, corpus, minWeight)
  {
    forall a, b ensures Adjacent(list, a, b) <==> Cooccur(corpus, minWeight, a, b) {
      assert {b, a} == {a, b};
      if a == b {
        assert {a, b} == {a};
      }
    }
  }

  lemma NodesCooccur(list: seq<Edge>, corpus: Corpus, minWeight: int)
    requires Faithful(list, corpus, minWeight)
    ensures forall a :: a in Nodes(list) <==> HasPartner(corpus, minWeight, a)
  {
    forall a ensures a in Nodes(list) <==> HasPartner(corpus, minWeight, a) {
      if a in Nodes(list) {
        var e :| e in list && (e.0 == a || e.1 == a);
        var b := if e.0 == a then e.1 else e.0;
        assert Adjacent(list, a, b);
      }
      if b :| Cooccur(corpus, minWeight, a, b) {
        assert Adjacent(list, a, b);
      }
    }
  }
}
