/**
 * detect_conflicts of scripts/claim_graph.py: grouping, the two scans, and the set of
 * pairs they report.
 */
module ConflictDetection {

  /** The columns of a claim that the query of detect_conflicts selects. */
  datatype Claim = Claim(
    id: nat, doc: string, subject: string, predicate_: string, object_: string, lens: string, confidence: real)

  datatype Kind = SamePredicate | AntonymPredicates

  datatype Conflict = Conflict(a: Claim, b: Claim, kind: Kind, strength: real)

  /** lower().strip(), which is applied to subjects and objects. */
  type Normaliser = string -> string

  type Antonyms = map<string, string>

  const ANTONYM_PAIRS: seq<(string, string)> := [
    ("arrived_on", "departed_on"),
    ("confirmed", "denied"),
    ("present_at", "absent_from"),
    ("sent_by", "not_sent_by"),
    ("alias_of", "distinct_from"),
    ("before", "after"),
    ("supports", "contradicts"),
    ("coercion_explicit", "coercion_implicit"),
    ("redacted", "present")]

  /** Of the pairs that mention p, the last one pairs it with q. */
  ghost predicate LastPartner(pairs: seq<(string, string)>, p: string, q: string) {
    exists k :: 0 <= k < |pairs| && Joins(pairs[k], p, q) && forall l :: k < l < |pairs| ==> !Mentions(pairs[l], p)
  }

  ghost predicate Mentions(pair: (string, string), p: string) {
    pair.0 == p || pair.1 == p
  }

  ghost predicate Joins(pair: (string, string), p: string, q: string) {
    pair == (p, q) || pair == (q, p)
  }

  /** The loop that fills the antonym dictionary: both directions of every pair, later pairs winning. */
  method AntonymMap(pairs: seq<(string, string)>) returns (m: Antonyms)
    ensures forall p :: p in m <==> exists k :: 0 <= k < |pairs| && Mentions(pairs[k], p)
    ensures forall p :: p in m ==> LastPartner(pairs, p, m[p])
  {
    m := map[];
    for i := 0 to |pairs|
      invariant forall p :: p in m <==> exists k :: 0 <= k < i && Mentions(pairs[k], p)
      invariant forall p :: p in m ==> LastPartner(pairs[..i], p, m[p])
    {
      ghost var before := m;
      m := m[pairs[i].0 := pairs[i].1];
      m := m[pairs[i].1 := pairs[i].0];
      forall p | p in m ensures LastPartner(pairs[..i + 1], p, m[p]) {
        PartnerStep(pairs, i, p, if p in before then before[p] else "", m[p]);
      }
    }
    assert pairs[..|pairs|] == pairs;
  }

  lemma PartnerStep(pairs: seq<(string, string)>, i: nat, p: string, q: string, r: string)
    requires i < |pairs|
    requires if Mentions(pairs[i], p) then Joins(pairs[i], p, r) else r == q && LastPartner(pairs[..i], p, q)
    ensures LastPartner(pairs[..i + 1], p, r)
  {
    var next := pairs[..i + 1];
    if Mentions(pairs[i], p) {
      assert Joins(next[i], p, r);
    } else {
      var k :| 0 <= k < i && Joins(pairs[..i][k], p, q) && forall l :: k < l < i ==> !Mentions(pairs[..i][l], p);
      assert Joins(next[k], p, r);
      forall l | k < l < |next| ensures !Mentions(next[l], p) {
        assert l < i ==> next[l] == pairs[..i][l];
      }
    }
  }

  /** If no predicate occurs in two pairs, every predicate is the antonym of its antonym. */
  lemma AntonymsSymmetric(pairs: seq<(string, string)>, m: Antonyms, p: string)
    requires forall k, l :: 0 <= k < l < |pairs| ==> {pairs[k].0, pairs[k].1} !! {pairs[l].0, pairs[l].1}
    requires forall q :: q in m <==> exists k :: 0 <= k < |pairs| && Mentions(pairs[k], q)
    requires forall q :: q in m ==> LastPartner(pairs, q, m[q])
    requires p in m
    ensures m[p] in m && m[m[p]] == p
  {
    hide LastPartner;
    var k := PartnerPair(pairs, p, m[p]);
    assert Mentions(pairs[k], m[p]);
    var l := PartnerPair(pairs, m[p], m[m[p]]);
    OnePairEach(pairs, k, l, m[p]);
  }

  lemma PartnerPair(pairs: seq<(string, string)>, p: string, q: string) returns (k: nat)
    requires LastPartner(pairs, p, q)
    ensures k < |pairs| && Joins(pairs[k], p, q)
  {
    k :| 0 <= k < |pairs| && Joins(pairs[k], p, q);
  }

  lemma OnePairEach(pairs: seq<(string, string)>, k: nat, l: nat, p: string)
    requires forall i, j :: 0 <= i < j < |pairs| ==> {pairs[i].0, pairs[i].1} !! {pairs[j].0, pairs[j].1}
    requires k < |pairs| && l < |pairs| && Mentions(pairs[k], p) && Mentions(pairs[l], p)
    ensures k == l
  {
    assert p in {pairs[k].0, pairs[k].1} && p in {pairs[l].0, pairs[l].1};
  }

  /** No predicate occurs in two of the listed pairs, so the antonym dictionary is symmetric. */
  lemma AntonymPairsDisjoint()
    ensures forall k, l :: 0 <= k < l < |ANTONYM_PAIRS| ==>
      {ANTONYM_PAIRS[k].0, ANTONYM_PAIRS[k].1} !! {ANTONYM_PAIRS[l].0, ANTONYM_PAIRS[l].1}
  {
  }

  // ----- The conflict relation -----

  ghost predicate SameSubject(norm: Normaliser, x: Claim, y: Claim) {
    norm(x.subject) == norm(y.subject)
  }

  /** Rule A: one subject and predicate, different objects. */
  ghost predicate Contradicts(norm: Normaliser, x: Claim, y: Claim) {
    SameSubject(norm, x, y) && x.predicate_ == y.predicate_ && norm(x.object_) != norm(y.object_)
  }

  /** The second predicate is the antonym of the first. */
  ghost predicate IsAntonym(antonyms: Antonyms, p: string, q: string) {
    p in antonyms && antonyms[p] != "" && antonyms[p] == q
  }

  /** Rule B: one subject, antonym predicates. */
  ghost predicate Opposes(norm: Normaliser, antonyms: Antonyms, x: Claim, y: Claim) {
    SameSubject(norm, x, y) && (IsAntonym(antonyms, x.predicate_, y.predicate_) || IsAntonym(antonyms, y.predicate_, x.predicate_))
  }

  ghost predicate InConflict(norm: Normaliser, antonyms: Antonyms, x: Claim, y: Claim) {
    x.id != y.id && (Contradicts(norm, x, y) || Opposes(norm, antonyms, x, y))
  }

  type IdPair = set<nat>

  ghost function PairOf(x: Claim, y: Claim): IdPair {
    {x.id, y.id}
  }

  ghost predicate DistinctIds(rows: seq<Claim>) {
    forall i, j :: 0 <= i < j < |rows| ==> rows[i].id != rows[j].id
  }

  /** The unordered pairs of rows in the relation. */
  ghost function ConflictPairs(norm: Normaliser, antonyms: Antonyms, rows: seq<Claim>): set<IdPair> {
    set x, y | x in rows && y in rows && InConflict(norm, antonyms, x, y) :: PairOf(x, y)
  }

  // ----- Grouping -----

  ghost function Members<X, K>(rows: seq<X>, key: X -> K, k: K): seq<X> {
    if rows == [] then []
    else
      var last := rows[|rows| - 1];
      Members(rows[..|rows| - 1], key, k) + if key(last) == k then [last] else []
  }

  lemma {:induction false} MembersExact<X, K>(rows: seq<X>, key: X -> K, k: K)
    ensures forall x :: x in Members(rows, key, k) <==> x in rows && key(x) == k
  {
    if rows != [] {
      MembersExact(rows[..|rows| - 1], key, k);
      assert rows == rows[..|rows| - 1] + [rows[|rows| - 1]];
    }
  }

  lemma MembersSnoc<X, K>(rows: seq<X>, x: X, key: X -> K, k: K)
    ensures Members(rows + [x], key, k) == if key(x) == k then Members(rows, key, k) + [x] else Members(rows, key, k)
  {
    assert (rows + [x])[..|rows|] == rows;
  }

  /** The groups of the rows handled so far, one for every key that occurs. */
  ghost predicate Grouped<X, K(!new)>(groups: map<K, seq<X>>, rows: seq<X>, key: X -> K) {
    forall k: K :: Members(rows, key, k) == if k in groups then groups[k] else []
  }

  lemma GroupedSnoc<X, K(!new)>(groups: map<K, seq<X>>, rows: seq<X>, key: X -> K, x: X)
    requires Grouped(groups, rows, key)
    ensures var k := key(x);
      Grouped(groups[k := (if k in groups then groups[k] else []) + [x]], rows + [x], key)
  {
    var k := key(x);
    var after := groups[k := (if k in groups then groups[k] else []) + [x]];
    forall l: K ensures Members(rows + [x], key, l) == if l in after then after[l] else [] {
      MembersSnoc(rows, x, key, l);
    }
  }

  /** groups.setdefault(key, []).append(row) for every row. */
  method GroupBy<X, K(==, !new)>(rows: seq<X>, key: X -> K) returns (groups: map<K, seq<X>>)
    ensures Grouped(groups, rows, key)
    ensures forall x :: x in rows ==> key(x) in groups
    ensures forall k :: k in groups ==> groups[k] != []
  {
    hide Grouped;
    groups := map[];
    EmptyGrouped(key);
    for i := 0 to |rows|
      invariant Grouped(groups, rows[..i], key)
      invariant forall j :: 0 <= j < i ==> key(rows[j]) in groups
      invariant forall k :: k in groups ==> groups[k] != []
    {
      GroupedSnoc(groups, rows[..i], key, rows[i]);
      assert rows[..i + 1] == rows[..i] + [rows[i]];
      var k := key(rows[i]);
      groups := groups[k := (if k in groups then groups[k] else []) + [rows[i]]];
    }
    assert rows[..|rows|] == rows;
  }

  lemma EmptyGrouped<X, K(!new)>(key: X -> K)
    ensures Grouped(map[], [], key)
  {
  }

  // ----- The result so far -----

  /**
   * The conflict joins two rows in the relation, with the kind of the rule that applies
   * first. It is as strong as the less confident of its two claims.
   */
  ghost predicate Sound(norm: Normaliser, antonyms: Antonyms, rows: seq<Claim>, c: Conflict) {
    && c.a in rows && c.b in rows && InConflict(norm, antonyms, c.a, c.b)
    && (c.kind == SamePredicate <==> Contradicts(norm, c.a, c.b))
    && (c.kind == AntonymPredicates ==> IsAntonym(antonyms, c.a.predicate_, c.b.predicate_))
    && c.strength <= c.a.confidence && c.strength <= c.b.confidence
    && (c.strength == c.a.confidence || c.strength == c.b.confidence)
  }

  /** The two claims determine the rest of a conflict. */
  lemma ConflictDetermined(norm: Normaliser, antonyms: Antonyms, rows: seq<Claim>, c: Conflict, d: Conflict)
    requires Sound(norm, antonyms, rows, c) && Sound(norm, antonyms, rows, d) && c.a == d.a && c.b == d.b
    ensures c == d
    ensures c.kind.SamePredicate? ==> c.a.predicate_ == c.b.predicate_
  {
    hide InConflict, IsAntonym;
    if c.kind.SamePredicate? {
      assert Contradicts(norm, c.a, c.b);
    }
  }

  ghost predicate NoPairTwice(conflicts: seq<Conflict>) {
    forall i, j :: 0 <= i < j < |conflicts| ==> PairOf(conflicts[i].a, conflicts[i].b) != PairOf(conflicts[j].a, conflicts[j].b)
  }

  /** `seen_pairs` holds the pairs of the conflicts found so far, each found once. */
  ghost predicate Bookkept(norm: Normaliser, antonyms: Antonyms, rows: seq<Claim>, conflicts: seq<Conflict>, seen: set<IdPair>) {
    && (forall c :: c in conflicts ==> Sound(norm, antonyms, rows, c))
    && (forall c :: c in conflicts ==> PairOf(c.a, c.b) in seen)
    && (forall p :: p in seen ==> exists c :: c in conflicts && PairOf(c.a, c.b) == p)
    && NoPairTwice(conflicts)
  }

  ghost predicate ContradictionsSeen(norm: Normaliser, rows: seq<Claim>, seen: set<IdPair>) {
    forall x, y :: x in rows && y in rows && x.id != y.id && Contradicts(norm, x, y) ==> PairOf(x, y) in seen
  }

  /** Rule B in the direction in which the scan meets it. */
  ghost predicate OpposedTo(norm: Normaliser, antonyms: Antonyms, x: Claim, y: Claim) {
    x.id != y.id && SameSubject(norm, x, y) && IsAntonym(antonyms, x.predicate_, y.predicate_)
  }

  ghost predicate OppositesSeen(norm: Normaliser, antonyms: Antonyms, rows: seq<Claim>, seen: set<IdPair>) {
    forall x, y :: x in rows && y in rows && OpposedTo(norm, antonyms, x, y) ==> PairOf(x, y) in seen
  }

  method AddConflict(norm: Normaliser, antonyms: Antonyms, ghost rows: seq<Claim>,
                     conflicts: seq<Conflict>, seen: set<IdPair>, ca: Claim, cb: Claim, kind: Kind)
    returns (conflicts': seq<Conflict>, seen': set<IdPair>)
    requires Bookkept(norm, antonyms, rows, conflicts, seen)
    requires ca in rows && cb in rows && InConflict(norm, antonyms, ca, cb)
    requires PairOf(ca, cb) !in seen ==> (kind == SamePredicate <==> Contradicts(norm, ca, cb))
    requires kind == AntonymPredicates ==> IsAntonym(antonyms, ca.predicate_, cb.predicate_)
    ensures Bookkept(norm, antonyms, rows, conflicts', seen')
    ensures seen' == seen + {PairOf(ca, cb)}
  {
    conflicts', seen' := conflicts, seen;
    var pair := {ca.id, cb.id};
    if pair in seen {
      return;
    }
    seen' := seen + {pair};
    var strength := if ca.confidence <= cb.confidence then ca.confidence else cb.confidence;
    var c := Conflict(ca, cb, kind, strength);
    conflicts' := conflicts + [c];
    assert Sound(norm, antonyms, rows, c) && pair == PairOf(ca, cb);
    hide Sound, PairOf, InConflict, Contradicts, IsAntonym;
    forall p | p in seen' ensures exists d :: d in conflicts' && PairOf(d.a, d.b) == p {
      if p == pair {
        assert c in conflicts';
      } else {
        var d :| d in conflicts && PairOf(d.a, d.b) == p;
        assert d in conflicts';
      }
    }
    forall i, j | 0 <= i < j < |conflicts'|
      ensures PairOf(conflicts'[i].a, conflicts'[i].b) != PairOf(conflicts'[j].a, conflicts'[j].b)
    {
      if j == |conflicts| {
        assert conflicts[i] in conflicts;
      }
    }
  }

  // ----- Rule A -----

  /** Within one group: all pairs of distinct positions with different objects. */
  method ScanGroup(norm: Normaliser, antonyms: Antonyms, ghost rows: seq<Claim>, members: seq<Claim>,
                   conflicts: seq<Conflict>, seen: set<IdPair>)
    returns (conflicts': seq<Conflict>, seen': set<IdPair>)
    requires Bookkept(norm, antonyms, rows, conflicts, seen)
    requires forall x :: x in members ==> x in rows
    requires forall x, y :: x in members && y in members ==> SameSubject(norm, x, y) && x.predicate_ == y.predicate_
    requires DistinctIds(members)
    ensures Bookkept(norm, antonyms, rows, conflicts', seen') && seen <= seen'
    ensures forall x, y :: x in members && y in members && x.id != y.id && Contradicts(norm, x, y) ==> PairOf(x, y) in seen'
  {
    hide Bookkept;
    conflicts', seen' := conflicts, seen;
    for i := 0 to |members|
      invariant Bookkept(norm, antonyms, rows, conflicts', seen') && seen <= seen'
      invariant forall k, l :: 0 <= k < i && k < l < |members| && Contradicts(norm, members[k], members[l]) ==>
        PairOf(members[k], members[l]) in seen'
    {
      for j := i + 1 to |members|
        invariant Bookkept(norm, antonyms, rows, conflicts', seen') && seen <= seen'
        invariant forall k, l :: 0 <= k < i && k < l < |members| && Contradicts(norm, members[k], members[l]) ==>
          PairOf(members[k], members[l]) in seen'
        invariant forall l :: i < l < j && Contradicts(norm, members[i], members[l]) ==> PairOf(members[i], members[l]) in seen'
      {
        var ca, cb := members[i], members[j];
        assert ca in members && cb in members;
        if norm(ca.object_) == norm(cb.object_) {
          continue;
        }
        conflicts', seen' := AddConflict(norm, antonyms, rows, conflicts', seen', ca, cb, SamePredicate);
      }
    }
    forall x, y | x in members && y in members && x.id != y.id && Contradicts(norm, x, y) ensures PairOf(x, y) in seen' {
      var k, l :| 0 <= k < |members| && 0 <= l < |members| && members[k] == x && members[l] == y;
      if l < k {
        assert PairOf(x, y) == PairOf(y, x);
        assert Contradicts(norm, members[l], members[k]);
      }
    }
  }

  lemma {:induction false} MembersDistinct<K>(rows: seq<Claim>, key: Claim -> K, k: K)
    requires DistinctIds(rows)
    ensures DistinctIds(Members(rows, key, k))
  {
    if rows != [] {
      var init, last := rows[..|rows| - 1], rows[|rows| - 1];
      MembersDistinct(init, key, k);
      MembersExact(init, key, k);
      forall i | 0 <= i < |Members(init, key, k)| ensures Members(init, key, k)[i].id != last.id {
        assert Members(init, key, k)[i] in init;
      }
    }
  }

  method ScanSamePredicate(norm: Normaliser, antonyms: Antonyms, rows: seq<Claim>)
    returns (conflicts: seq<Conflict>, seen: set<IdPair>)
    requires DistinctIds(rows)
    ensures Bookkept(norm, antonyms, rows, conflicts, seen)
    ensures ContradictionsSeen(norm, rows, seen)
  {
    var key := (c: Claim) => (norm(c.subject), c.predicate_);
    var groups := GroupBy(rows, key);
    conflicts, seen := [], {};
    var todo := groups.Keys;
    while todo != {}
      invariant todo <= groups.Keys
      invariant Bookkept(norm, antonyms, rows, conflicts, seen)
      invariant forall x, y :: x in rows && y in rows && x.id != y.id && Contradicts(norm, x, y) && key(x) !in todo ==>
        PairOf(x, y) in seen
      decreases |todo|
    {
      var k :| k in todo;
      todo := todo - {k};
      MembersExact(rows, key, k);
      MembersDistinct(rows, key, k);
      hide Bookkept;
      if |groups[k]| >= 2 {
        conflicts, seen := ScanGroup(norm, antonyms, rows, groups[k], conflicts, seen);
      } else {
        FewMembers(rows, key, k);
      }
    }
  }

  lemma FewMembers<K>(rows: seq<Claim>, key: Claim -> K, k: K)
    requires |Members(rows, key, k)| < 2
    ensures forall x, y :: x in rows && y in rows && key(x) == k && key(y) == k ==> x == y
  {
    MembersExact(rows, key, k);
  }

  // ----- Rule B -----

  method ScanSubject(norm: Normaliser, antonyms: Antonyms, ghost rows: seq<Claim>, members: seq<Claim>,
                     conflicts: seq<Conflict>, seen: set<IdPair>)
    returns (conflicts': seq<Conflict>, seen': set<IdPair>)
    requires Bookkept(norm, antonyms, rows, conflicts, seen)
    requires forall x :: x in members ==> x in rows
    requires forall x, y :: x in members && y in members ==> SameSubject(norm, x, y)
    requires ContradictionsSeen(norm, rows, seen)
    ensures Bookkept(norm, antonyms, rows, conflicts', seen') && seen <= seen'
    ensures forall x, y :: x in members && y in members && OpposedTo(norm, antonyms, x, y) ==> PairOf(x, y) in seen'
  {
    hide Bookkept, PairOf;
    conflicts', seen' := conflicts, seen;
    for i := 0 to |members|
      invariant Bookkept(norm, antonyms, rows, conflicts', seen') && seen <= seen'
      invariant forall k, l :: 0 <= k < i && 0 <= l < |members| && OpposedTo(norm, antonyms, members[k], members[l]) ==>
        PairOf(members[k], members[l]) in seen'
    {
      var ca := members[i];
      assert ca in members;
      if ca.predicate_ !in antonyms || antonyms[ca.predicate_] == "" {
        continue;
      }
      for j := 0 to |members|
        invariant Bookkept(norm, antonyms, rows, conflicts', seen') && seen <= seen'
        invariant forall k, l :: 0 <= k < i && 0 <= l < |members| && OpposedTo(norm, antonyms, members[k], members[l]) ==>
          PairOf(members[k], members[l]) in seen'
        invariant forall l :: 0 <= l < j && OpposedTo(norm, antonyms, ca, members[l]) ==> PairOf(ca, members[l]) in seen'
      {
        var cb := members[j];
        assert cb in members;
        if cb.id == ca.id || cb.predicate_ != antonyms[ca.predicate_] {
          continue;
        }
        conflicts', seen' := AddConflict(norm, antonyms, rows, conflicts', seen', ca, cb, AntonymPredicates);
      }
    }
  }

  lemma OpposedSameSubject(norm: Normaliser, antonyms: Antonyms, x: Claim, y: Claim)
    requires OpposedTo(norm, antonyms, x, y)
    ensures norm(x.subject) == norm(y.subject)
  {
  }

  method ScanAntonyms(norm: Normaliser, antonyms: Antonyms, rows: seq<Claim>, conflicts: seq<Conflict>, seen: set<IdPair>)
    returns (conflicts': seq<Conflict>, seen': set<IdPair>)
    requires Bookkept(norm, antonyms, rows, conflicts, seen)
    requires ContradictionsSeen(norm, rows, seen)
    ensures Bookkept(norm, antonyms, rows, conflicts', seen') && seen <= seen'
    ensures OppositesSeen(norm, antonyms, rows, seen')
  {
    hide Bookkept, PairOf, OpposedTo;
    var key := (c: Claim) => norm(c.subject);
    var groups := GroupBy(rows, key);
    conflicts', seen' := conflicts, seen;
    var todo := groups.Keys;
    while todo != {}
      invariant todo <= groups.Keys
      invariant Bookkept(norm, antonyms, rows, conflicts', seen') && seen <= seen'
      invariant forall x, y ::
        x in rows && y in rows && key(x) !in todo && OpposedTo(norm, antonyms, x, y) ==> PairOf(x, y) in seen'
      decreases |todo|
    {
      var k :| k in todo;
      todo := todo - {k};
      MembersExact(rows, key, k);
      forall x, y | x in rows && y in rows && OpposedTo(norm, antonyms, x, y) ensures key(y) == key(x) {
        OpposedSameSubject(norm, antonyms, x, y);
      }
      conflicts', seen' := ScanSubject(norm, antonyms, rows, groups[k], conflicts', seen');
    }
  }

  // ----- detect_conflicts -----

  ghost predicate Selected(c: Claim, minConfidence: real, doc: string) {
    c.confidence >= minConfidence && (doc == "" || c.doc == doc)
  }

  /** The query; its ORDER BY affects the order of the result only. */
  method Select(table: seq<Claim>, minConfidence: real, doc: string) returns (rows: seq<Claim>)
    requires DistinctIds(table)
    ensures DistinctIds(rows)
    ensures forall c :: c in rows <==> c in table && Selected(c, minConfidence, doc)
  {
    rows := [];
    for i := 0 to |table|
      invariant DistinctIds(rows)
      invariant forall c :: c in rows <==> c in table[..i] && Selected(c, minConfidence, doc)
    {
      assert table[..i + 1] == table[..i] + [table[i]];
      if table[i].confidence >= minConfidence && (doc == "" || table[i].doc == doc) {
        forall k | 0 <= k < |rows| ensures rows[k].id != table[i].id {
          assert rows[k] in table[..i];
        }
        rows := rows + [table[i]];
      }
    }
    assert table[..|table|] == table;
  }

  ghost function PairsOf(conflicts: seq<Conflict>): set<IdPair> {
    set c | c in conflicts :: PairOf(c.a, c.b)
  }

  /**
   * Reports each unordered pair of selected claims in the relation exactly once, and
   * nothing else. An empty document id stands for the missing argument.
   */
  method DetectConflicts(norm: Normaliser, antonyms: Antonyms, table: seq<Claim>, minConfidence: real, doc: string)
    returns (conflicts: seq<Conflict>, ghost rows: seq<Claim>)
    requires DistinctIds(table)
    ensures forall c :: c in rows <==> c in table && Selected(c, minConfidence, doc)
    ensures forall c :: c in conflicts ==> Sound(norm, antonyms, rows, c)
    ensures NoPairTwice(conflicts)
    ensures PairsOf(conflicts) == ConflictPairs(norm, antonyms, rows)
  {
    var selected := Select(table, minConfidence, doc);
    rows := selected;
    var seen;
    conflicts, seen := ScanSamePredicate(norm, antonyms, selected);
    conflicts, seen := ScanAntonyms(norm, antonyms, selected, conflicts, seen);
    AllReported(norm, antonyms, rows, conflicts, seen);
  }

  lemma AllReported(norm: Normaliser, antonyms: Antonyms, rows: seq<Claim>, conflicts: seq<Conflict>, seen: set<IdPair>)
    requires Bookkept(norm, antonyms, rows, conflicts, seen)
    requires ContradictionsSeen(norm, rows, seen)
    requires OppositesSeen(norm, antonyms, rows, seen)
    ensures PairsOf(conflicts) == ConflictPairs(norm, antonyms, rows)
  {
    forall p | p in ConflictPairs(norm, antonyms, rows) ensures p in PairsOf(conflicts) {
      var x, y :| x in rows && y in rows && InConflict(norm, antonyms, x, y) && p == PairOf(x, y);
      assert PairOf(x, y) == PairOf(y, x);
      assert p in seen;
      var c :| c in conflicts && PairOf(c.a, c.b) == p;
    }
    forall p | p in PairsOf(conflicts) ensures p in ConflictPairs(norm, antonyms, rows) {
      var c :| c in conflicts && PairOf(c.a, c.b) == p;
      assert Sound(norm, antonyms, rows, c);
    }
  }

  /** The result for one document is the global result restricted to pairs inside it. */
  lemma DocumentIsRestriction(norm: Normaliser, antonyms: Antonyms, table: seq<Claim>, minConfidence: real, doc: string,
                              all: seq<Claim>, inside: seq<Claim>, x: Claim, y: Claim)
    requires DistinctIds(table) && doc != "" && x in table && y in table
    requires forall c :: c in all <==> c in table && Selected(c, minConfidence, "")
    requires forall c :: c in inside <==> c in table && Selected(c, minConfidence, doc)
    ensures PairOf(x, y) in ConflictPairs(norm, antonyms, inside) <==>
      PairOf(x, y) in ConflictPairs(norm, antonyms, all) && x.doc == doc && y.doc == doc
  {
    if PairOf(x, y) in ConflictPairs(norm, antonyms, inside) {
      var u, v :| u in inside && v in inside && InConflict(norm, antonyms, u, v) && PairOf(u, v) == PairOf(x, y);
      SameRows(table, u, v, x, y);
    }
    if PairOf(x, y) in ConflictPairs(norm, antonyms, all) && x.doc == doc && y.doc == doc {
      var u, v :| u in all && v in all && InConflict(norm, antonyms, u, v) && PairOf(u, v) == PairOf(x, y);
      SameRows(table, u, v, x, y);
    }
  }

  /** A pair of ids determines the two rows. */
  lemma SameRows(table: seq<Claim>, u: Claim, v: Claim, x: Claim, y: Claim)
    requires DistinctIds(table) && u in table && v in table && x in table && y in table
    requires u.id != v.id && PairOf(u, v) == PairOf(x, y)
    ensures (u == x && v == y) || (u == y && v == x)
  {
    assert u.id in {x.id, y.id} && v.id in {x.id, y.id};
  }
}
