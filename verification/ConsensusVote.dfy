/**
 * Majority vote over the span sets of several teachers: cmd_merge of
 * scripts/collapse_consensus.py.
 */
module ConsensusVote {
  import opened TeacherSpans
  import opened Wrappers

  /** One teacher's JSON file for the text. */
  datatype File = File(text: string, entities: seq<Span>)

  datatype Record = Record(text: string, entities: seq<Span>)

  /** What _spans_to_set makes of one file. */
  ghost function SpanSet(entities: seq<Span>): set<Span> {
    set e | e in entities
  }

  /** The number of the given sets that contain the span. */
  ghost function Votes(sets: seq<set<Span>>, sp: Span): nat {
    if sets == [] then 0
    else Votes(sets[..|sets| - 1], sp) + if sp in sets[|sets| - 1] then 1 else 0
  }

  ghost function Threshold(teachers: nat): nat {
    teachers / 2 + 1
  }

  /** The threshold that its comment announces: half of the teachers, rounded up, and one more. */
  ghost function AnnouncedThreshold(teachers: nat): nat {
    (teachers + 1) / 2 + 1
  }

  /** The code asks for a strict majority, which is what the comment says only for an even number of teachers. */
  lemma ThresholdIsMajority(teachers: nat, votes: nat)
    ensures votes >= Threshold(teachers) <==> 2 * votes > teachers
    ensures Threshold(teachers) == AnnouncedThreshold(teachers) <==> teachers % 2 == 0
    ensures teachers % 2 == 1 ==> Threshold(teachers) == AnnouncedThreshold(teachers) - 1
  {
  }

  /** The span sets of the files that exist, in the order of the directories. */
  ghost function PresentSets(files: seq<Option<File>>): seq<set<Span>> {
    if files == [] then []
    else
      var last := files[|files| - 1];
      PresentSets(files[..|files| - 1]) + if last.Some? then [SpanSet(last.value.entities)] else []
  }

  /** The text of the first file that exists. */
  ghost function FirstText(files: seq<Option<File>>): Option<string> {
    if files == [] then None
    else if files[0].Some? then Some(files[0].value.text)
    else FirstText(files[1..])
  }

  lemma {:induction false} PresentCount(files: seq<Option<File>>)
    ensures |PresentSets(files)| <= |files|
    ensures forall s :: s in PresentSets(files) ==> exists f :: Some(f) in files && s == SpanSet(f.entities)
  {
    if files == [] {
    } else {
      var init, last := files[..|files| - 1], files[|files| - 1];
      PresentCount(init);
      assert files == init + [last];
      forall s | s in PresentSets(files) ensures exists f :: Some(f) in files && s == SpanSet(f.entities) {
        if s in PresentSets(init) {
          var f :| Some(f) in init && s == SpanSet(f.entities);
          assert Some(f) in files;
        } else {
          assert Some(last.value) in files && s == SpanSet(last.value.entities);
        }
      }
    }
  }

  // ----- Counting -----

  /** The dictionary maps exactly the spans with votes to their number. */
  ghost predicate Tallies(votes: map<Span, nat>, sets: seq<set<Span>>) {
    && (forall sp :: sp in votes ==> votes[sp] == Votes(sets, sp) > 0)
    && (forall sp :: Votes(sets, sp) > 0 ==> sp in votes)
  }

  method CountVotes(sets: seq<set<Span>>) returns (votes: map<Span, nat>)
    ensures Tallies(votes, sets)
  {
    votes := map[];
    for i := 0 to |sets|
      invariant Tallies(votes, sets[..i])
    {
      assert sets[..i + 1][..i] == sets[..i];
      ghost var before := votes;
      var todo := sets[i];
      while todo != {}
        invariant todo <= sets[i]
        invariant votes.Keys == before.Keys + (sets[i] - todo)
        invariant forall sp :: sp in votes ==>
          votes[sp] == Votes(sets[..i], sp) + if sp in sets[i] - todo then 1 else 0
        decreases |todo|
      {
        var sp :| sp in todo;
        votes := votes[sp := (if sp in votes then votes[sp] else 0) + 1];
        todo := todo - {sp};
      }
    }
    assert sets[..|sets|] == sets;
  }

  // ----- Selection and order -----

  ghost predicate SortedByStart(s: seq<Span>) {
    forall i, j :: 0 <= i < j < |s| ==> s[i].start <= s[j].start
  }

  ghost predicate NoDuplicates(s: seq<Span>) {
    forall i, j :: 0 <= i < j < |s| ==> s[i] != s[j]
  }

  /** list.sort by start, as a stable insertion. */
  function InsertByStart(s: seq<Span>, sp: Span): seq<Span> {
    if s == [] || s[|s| - 1].start <= sp.start then s + [sp]
    else InsertByStart(s[..|s| - 1], sp) + [s[|s| - 1]]
  }

  lemma {:induction false} InsertByStartMembers(s: seq<Span>, sp: Span)
    ensures forall x :: x in InsertByStart(s, sp) <==> x in s || x == sp
  {
    if s == [] || s[|s| - 1].start <= sp.start {
    } else {
      InsertByStartMembers(s[..|s| - 1], sp);
      assert s == s[..|s| - 1] + [s[|s| - 1]];
    }
  }

  lemma AppendLast(s: seq<Span>, last: Span)
    requires SortedByStart(s) && NoDuplicates(s)
    requires forall x :: x in s ==> x.start <= last.start && x != last
    ensures SortedByStart(s + [last]) && NoDuplicates(s + [last])
  {
    assert forall i :: 0 <= i < |s| ==> s[i] in s;
  }

  lemma LastIsGreatest(s: seq<Span>)
    requires s != [] && SortedByStart(s) && NoDuplicates(s)
    ensures forall x :: x in s[..|s| - 1] ==> x.start <= s[|s| - 1].start && x != s[|s| - 1]
  {
  }

  lemma {:induction false} InsertByStartSorts(s: seq<Span>, sp: Span)
    requires SortedByStart(s) && NoDuplicates(s) && sp !in s
    ensures SortedByStart(InsertByStart(s, sp)) && NoDuplicates(InsertByStart(s, sp))
  {
    if s == [] || s[|s| - 1].start <= sp.start {
    } else {
      var init, last := s[..|s| - 1], s[|s| - 1];
      LastIsGreatest(s);
      InsertByStartSorts(init, sp);
      InsertByStartMembers(init, sp);
      AppendLast(InsertByStart(init, sp), last);
    }
  }

  method Agreed(votes: map<Span, nat>, threshold: nat) returns (agreed: seq<Span>)
    ensures forall sp :: sp in agreed <==> sp in votes && votes[sp] >= threshold
    ensures SortedByStart(agreed) && NoDuplicates(agreed)
  {
    agreed := [];
    var todo := votes.Keys;
    while todo != {}
      invariant todo <= votes.Keys
      invariant forall sp :: sp in agreed <==> sp in votes.Keys - todo && votes[sp] >= threshold
      invariant SortedByStart(agreed) && NoDuplicates(agreed)
      decreases |todo|
    {
      var sp :| sp in todo;
      if votes[sp] >= threshold {
        InsertByStartSorts(agreed, sp);
        InsertByStartMembers(agreed, sp);
        agreed := InsertByStart(agreed, sp);
      }
      todo := todo - {sp};
    }
  }

  /** The teachers whose file lists the span. */
  ghost function Voters(files: seq<Option<File>>, sp: Span): set<nat> {
    set i: nat | i < |files| && files[i].Some? && sp in files[i].value.entities
  }

  /** The span is listed by more than half of all configured teachers, present or not. */
  ghost predicate HasMajority(files: seq<Option<File>>, sp: Span) {
    2 * |Voters(files, sp)| > |files|
  }

  /** The votes that the loops count are the teachers that list the span. */
  lemma {:induction false} VotesAreVoters(files: seq<Option<File>>, sp: Span)
    ensures Votes(PresentSets(files), sp) == |Voters(files, sp)|
  {
    if files != [] {
      var n := |files| - 1;
      var init, last := files[..n], files[n];
      VotesAreVoters(init, sp);
      var own: set<nat> := if last.Some? && sp in last.value.entities then {n} else {};
      assert Voters(files, sp) == Voters(init, sp) + own;
      if last.Some? {
        var sets := PresentSets(init);
        assert (sets + [SpanSet(last.value.entities)])[..|sets|] == sets;
      } else {
        assert PresentSets(files) == PresentSets(init);
      }
    }
  }

  /**
   * No record is written: the texts are those of the first teacher's directory, whose file
   * also gives the text.
   */
  ghost predicate Dropped(files: seq<Option<File>>) {
    files == [] || files[0].None? || files[0].value.text == ""
  }

  /** The list holds exactly the majority spans, once each, sorted by start. */
  ghost predicate IsMajorityList(spans: seq<Span>, files: seq<Option<File>>) {
    && (forall sp :: sp in spans <==> HasMajority(files, sp))
    && NoDuplicates(spans) && SortedByStart(spans)
  }

  /** The record of a text that is not dropped. */
  ghost predicate IsRecord(record: Record, files: seq<Option<File>>)
    requires !Dropped(files)
  {
    record.text == files[0].value.text && IsMajorityList(record.entities, files)
  }

  /** The body of the loop over the texts. */
  method MergeText(files: seq<Option<File>>) returns (r: Option<Record>)
    requires files != [] && files[0].Some?
    ensures r.None? <==> Dropped(files)
    ensures r.Some? ==> IsRecord(r.value, files)
  {
    var text: Option<string> := None;
    var sets: seq<set<Span>> := [];
    for i := 0 to |files|
      invariant sets == PresentSets(files[..i]) && text == FirstText(files[..i])
      invariant text.Some? <==> sets != []
    {
      assert files[..i + 1][..i] == files[..i];
      FirstTextSnoc(files[..i], files[i]);
      assert files[..i + 1] == files[..i] + [files[i]];
      if files[i].Some? {
        if text.None? {
          text := Some(files[i].value.text);
        }
        sets := sets + [set e | e in files[i].value.entities];
      }
    }
    assert files[..|files|] == files;
    if text.None? || text.value == "" || sets == [] {
      return None;
    }
    var votes := CountVotes(sets);
    var agreed := Agreed(votes, |files| / 2 + 1);
    forall sp ensures HasMajority(files, sp) <==> Votes(sets, sp) >= Threshold(|files|) {
      VotesAreVoters(files, sp);
    }
    r := Some(Record(text.value, agreed));
  }

  /** What becomes of one text: it is looked up in every directory if the first one has it. */
  method Merge(files: seq<Option<File>>) returns (r: Option<Record>)
    ensures r.None? <==> files == [] || files[0].None? || files[0].value.text == ""
    ensures r.Some? ==> r.value.text == files[0].value.text && IsMajorityList(r.value.entities, files)
  {
    if files == [] || files[0].None? {
      return None;
    }
    r := MergeText(files);
  }

  // ----- All texts -----

  /** A directory of one teacher, from the stem of a text to its file. */
  type Directory = map<string, File>

  /** The files of one text, in the order of the directories. */
  function FilesFor(dirs: seq<Directory>, stem: string): (files: seq<Option<File>>)
    ensures |files| == |dirs|
    ensures forall i :: 0 <= i < |dirs| ==> files[i] == if stem in dirs[i] then Some(dirs[i][stem]) else None
  {
    seq(|dirs|, i requires 0 <= i < |dirs| => if stem in dirs[i] then Some(dirs[i][stem]) else None)
  }

  /**
   * cmd_merge: it fails without a directory or without a file in the first one, and otherwise
   * writes one record for each text that is not dropped.
   */
  method MergeAll(dirs: seq<Directory>) returns (r: Option<map<string, Record>>)
    ensures r.None? <==> dirs == [] || dirs[0] == map[]
    ensures r.Some? ==> forall stem :: stem in r.value <==> !Dropped(FilesFor(dirs, stem))
    ensures r.Some? ==> forall stem :: stem in r.value ==> IsRecord(r.value[stem], FilesFor(dirs, stem))
  {
    hide Dropped, IsRecord;
    if dirs == [] || dirs[0] == map[] {
      return None;
    }
    var records: map<string, Record> := map[];
    var todo := dirs[0].Keys;
    while todo != {}
      invariant todo <= dirs[0].Keys
      invariant forall stem :: stem in records <==> stem in dirs[0].Keys - todo && !Dropped(FilesFor(dirs, stem))
      invariant forall stem :: stem in records ==> IsRecord(records[stem], FilesFor(dirs, stem))
      decreases |todo|
    {
      var stem :| stem in todo;
      todo := todo - {stem};
      var record := MergeText(FilesFor(dirs, stem));
      if record.Some? {
        records := records[stem := record.value];
      }
    }
    forall stem | stem !in dirs[0] ensures Dropped(FilesFor(dirs, stem)) {
      UnlistedDropped(dirs, stem);
    }
    r := Some(records);
  }

  lemma UnlistedDropped(dirs: seq<Directory>, stem: string)
    requires dirs != [] && stem !in dirs[0]
    ensures Dropped(FilesFor(dirs, stem))
  {
  }

  /** A text with majority spans and no empty file is dropped exactly if the first teacher has no file for it. */
  lemma MajorityDroppedIff(files: seq<Option<File>>, sp: Span)
    requires HasMajority(files, sp) && forall f :: Some(f) in files ==> f.text != ""
    ensures files != [] && (Dropped(files) <==> files[0].None?)
  {
    if files[0].Some? {
      assert Some(files[0].value) in files;
    }
  }

  /** Two of three teachers agree, but the first one has no file. */
  lemma MajorityDroppedExample()
    ensures var f := Some(File("Jo Li", [Span(0, 2)]));
      HasMajority([None, f, f], Span(0, 2)) && Dropped([None, f, f])
  {
    var f := Some(File("Jo Li", [Span(0, 2)]));
    assert Voters([None, f, f], Span(0, 2)) == {1, 2};
  }

  lemma {:induction false} FirstTextSnoc(files: seq<Option<File>>, f: Option<File>)
    ensures FirstText(files + [f]) ==
      if FirstText(files).Some? then FirstText(files) else if f.Some? then Some(f.value.text) else None
  {
    if files == [] {
    } else {
      assert (files + [f])[1..] == files[1..] + [f];
      FirstTextSnoc(files[1..], f);
    }
  }

  // ----- Quorum intersection -----

  /** Two spans with more votes than there are voters share a voter. */
  lemma {:induction false} SharedVoter(sets: seq<set<Span>>, a: Span, b: Span) returns (i: nat)
    requires Votes(sets, a) + Votes(sets, b) > |sets|
    ensures i < |sets| && a in sets[i] && b in sets[i]
  {
    var last := |sets| - 1;
    if a in sets[last] && b in sets[last] {
      i := last;
    } else {
      i := SharedVoter(sets[..last], a, b);
    }
  }

  /**
   * If no teacher's own spans overlap, no two spans of the merged list overlap, even
   * when some teachers have no file for the text.
   */
  lemma MajoritiesDisjoint(files: seq<Option<File>>, a: Span, b: Span)
    requires forall f :: Some(f) in files ==> Ordered(f.entities)
    requires HasMajority(files, a) && HasMajority(files, b) && a != b
    ensures Disjoint(a, b)
  {
    PresentCount(files);
    VotesAreVoters(files, a);
    VotesAreVoters(files, b);
    var sets := PresentSets(files);
    var i := SharedVoter(sets, a, b);
    assert sets[i] in sets;
    var f :| Some(f) in files && sets[i] == SpanSet(f.entities);
    assert Ordered(f.entities);
  }

  /** Every merged span was proposed by some teacher. */
  lemma {:induction false} Proposed(sets: seq<set<Span>>, a: Span) returns (i: nat)
    requires Votes(sets, a) > 0
    ensures i < |sets| && a in sets[i]
  {
    if a in sets[|sets| - 1] {
      i := |sets| - 1;
    } else {
      i := Proposed(sets[..|sets| - 1], a);
    }
  }

  /** The merged list as the next stage needs it: sorted, pairwise disjoint, proper spans. */
  ghost predicate Layered(spans: seq<Span>) {
    && SortedByStart(spans)
    && (forall i :: 0 <= i < |spans| ==> spans[i].start <= spans[i].end)
    && (forall i, j :: 0 <= i < j < |spans| ==> Disjoint(spans[i], spans[j]))
  }

  lemma MergeLayered(files: seq<Option<File>>, spans: seq<Span>)
    requires forall f :: Some(f) in files ==> Ordered(f.entities)
    requires SortedByStart(spans) && NoDuplicates(spans) && forall sp :: sp in spans ==> HasMajority(files, sp)
    ensures Layered(spans)
  {
    PresentCount(files);
    forall i | 0 <= i < |spans| ensures spans[i].start <= spans[i].end {
      assert HasMajority(files, spans[i]);
      VotesAreVoters(files, spans[i]);
      var k := Proposed(PresentSets(files), spans[i]);
      assert PresentSets(files)[k] in PresentSets(files);
      var f :| Some(f) in files && PresentSets(files)[k] == SpanSet(f.entities);
      assert Ordered(f.entities);
    }
    forall i, j | 0 <= i < j < |spans| ensures Disjoint(spans[i], spans[j]) {
      assert spans[i] in spans && spans[j] in spans;
      MajoritiesDisjoint(files, spans[i], spans[j]);
    }
  }
}
