/**
 * The yearly topic shares of topics_over_time.py (lines 64 to 152). The
 * dense frame is joined, row by document position, with the exploded tags of
 * the tagged documents, then joined, tag to `id`, with the distinct
 * `(id, date)` rows of the cleaned speeches; each row gets its year, its
 * columns are renamed and reordered, and per year the topic weights are
 * added up and divided by the number of rows of that year.
 */
module TopicsOverTime {
  import opened Wrappers
  import opened Ordering
  import opened Records
  import opened Text
  import opened TopicMatrix
  import TopicModel

  function Min(a: nat, b: nat): nat
  {
    if a < b then a else b
  }

  // topics_over_time.py:74: the tagged documents, one row per tag, numbered by document position.

  /** A row of the exploded tagged documents: the document's position and one tag, `None` (NaN) for an empty tag list. */
  datatype TagRow = TagRow(index: nat, tag: Option<Id>)

  /** The rows one document's tag list explodes into. */
  function ExplodeTagsOf(k: nat, tags: seq<Id>): seq<TagRow>
  {
    if tags == [] then [TagRow(k, None)]
    else seq(|tags|, j requires 0 <= j < |tags| => TagRow(k, Some(tags[j])))
  }

  function ExplodeTags(tagLists: seq<seq<Id>>): seq<TagRow>
  {
    if tagLists == [] then []
    else ExplodeTags(tagLists[..|tagLists| - 1]) + ExplodeTagsOf(|tagLists| - 1, tagLists[|tagLists| - 1])
  }

  /** Every document carries exactly one tag, as the tagged documents of topic_model.py do. */
  predicate SingleTags(tagLists: seq<seq<Id>>)
  {
    forall k :: 0 <= k < |tagLists| ==> |tagLists[k]| == 1
  }

  lemma ExplodeTagsOfMembers(n: nat, tags: seq<Id>, k: nat, t: Id)
    ensures TagRow(k, Some(t)) in ExplodeTagsOf(n, tags) <==> k == n && t in tags
    ensures TagRow(k, None) in ExplodeTagsOf(n, tags) <==> k == n && tags == []
  {
    var e := ExplodeTagsOf(n, tags);
    if TagRow(k, Some(t)) in e {
      var j :| 0 <= j < |e| && e[j] == TagRow(k, Some(t));
    }
    if k == n && t in tags {
      var j :| 0 <= j < |tags| && tags[j] == t;
      assert e[j] == TagRow(k, Some(t));
    }
  }

  /** A tag row is there exactly for a tag of that document, and a NaN row exactly for a document without tags. */
  lemma {:induction false} ExplodeTagsMembers(tagLists: seq<seq<Id>>, k: nat, t: Id)
    ensures TagRow(k, Some(t)) in ExplodeTags(tagLists) <==> k < |tagLists| && t in tagLists[k]
    ensures TagRow(k, None) in ExplodeTags(tagLists) <==> k < |tagLists| && tagLists[k] == []
  {
    if tagLists != [] {
      var n := |tagLists| - 1;
      var init := tagLists[..n];
      ExplodeTagsMembers(init, k, t);
      ExplodeTagsOfMembers(n, tagLists[n], k, t);
      if k < n {
        assert init[k] == tagLists[k];
      }
    }
  }

  /** With one tag per document, row `k` of the exploded table is document `k` and its tag. */
  lemma {:induction false} ExplodeSingleTags(tagLists: seq<seq<Id>>)
    requires SingleTags(tagLists)
    ensures |ExplodeTags(tagLists)| == |tagLists|
    ensures forall k :: 0 <= k < |tagLists| ==> ExplodeTags(tagLists)[k] == TagRow(k, Some(tagLists[k][0]))
  {
    if tagLists != [] {
      var n := |tagLists| - 1;
      var init := tagLists[..n];
      assert forall k :: 0 <= k < n ==> init[k] == tagLists[k];
      ExplodeSingleTags(init);
      assert ExplodeTagsOf(n, tagLists[n]) == [TagRow(n, Some(tagLists[n][0]))];
      var e := ExplodeTags(tagLists);
      assert e == ExplodeTags(init) + [TagRow(n, Some(tagLists[n][0]))];
      forall k | 0 <= k < n ensures e[k] == TagRow(k, Some(tagLists[k][0])) {
        assert e[k] == ExplodeTags(init)[k];
      }
    }
  }

  // topics_over_time.py:76-79: the frame joined with the tag rows on the document position; the tag and the ten weights are kept.

  /** A row of `df_topics`: a tag and the topic row of its document. */
  datatype TaggedTopics = TaggedTopics(tag: Option<Id>, topics: TopicVector)

  /** The joined rows for frame row `i`: one per tag row of document `i`, in tag order. */
  function MatchIndex(i: nat, row: TopicVector, tags: seq<TagRow>): seq<TaggedTopics>
  {
    if tags == [] then []
    else (if tags[0].index == i then [TaggedTopics(tags[0].tag, row)] else []) + MatchIndex(i, row, tags[1..])
  }

  /** The inner join on the document position, listed frame row by frame row. */
  function MergeOnIndex(matrix: seq<TopicVector>, tags: seq<TagRow>): seq<TaggedTopics>
  {
    if matrix == [] then []
    else MergeOnIndex(matrix[..|matrix| - 1], tags) + MatchIndex(|matrix| - 1, matrix[|matrix| - 1], tags)
  }

  lemma {:induction false} MatchIndexSequential(i: nat, row: TopicVector, tags: seq<TagRow>, base: nat)
    requires forall k :: 0 <= k < |tags| ==> tags[k].index == base + k
    ensures MatchIndex(i, row, tags) == if base <= i < base + |tags| then [TaggedTopics(tags[i - base].tag, row)] else []
  {
    if tags != [] {
      MatchIndexSequential(i, row, tags[1..], base + 1);
    }
  }

  lemma {:induction false} MergeSequentialLength(matrix: seq<TopicVector>, tags: seq<TagRow>)
    requires forall k :: 0 <= k < |tags| ==> tags[k].index == k
    ensures |MergeOnIndex(matrix, tags)| == Min(|matrix|, |tags|)
  {
    if matrix != [] {
      var n := |matrix| - 1;
      MergeSequentialLength(matrix[..n], tags);
      MatchIndexSequential(n, matrix[n], tags, 0);
    }
  }

  lemma {:induction false} MergeSequentialAt(matrix: seq<TopicVector>, tags: seq<TagRow>, k: nat)
    requires forall k :: 0 <= k < |tags| ==> tags[k].index == k
    requires k < |matrix| && k < |tags|
    ensures k < |MergeOnIndex(matrix, tags)| && MergeOnIndex(matrix, tags)[k] == TaggedTopics(tags[k].tag, matrix[k])
  {
    var n := |matrix| - 1;
    var init := matrix[..n];
    var pre := MergeOnIndex(init, tags);
    assert MergeOnIndex(matrix, tags) == pre + MatchIndex(n, matrix[n], tags);
    if k < n {
      MergeSequentialAt(init, tags, k);
      assert init[k] == matrix[k];
    } else {
      MergeSequentialLength(init, tags);
      MatchIndexSequential(n, matrix[n], tags, 0);
    }
  }

  /** Against consecutively numbered tag rows, the join pairs the rows position by position. */
  lemma MergeSequential(matrix: seq<TopicVector>, tags: seq<TagRow>)
    requires forall k :: 0 <= k < |tags| ==> tags[k].index == k
    ensures |MergeOnIndex(matrix, tags)| == Min(|matrix|, |tags|)
    ensures forall k :: 0 <= k < Min(|matrix|, |tags|) ==> MergeOnIndex(matrix, tags)[k] == TaggedTopics(tags[k].tag, matrix[k])
  {
    MergeSequentialLength(matrix, tags);
    forall k | 0 <= k < Min(|matrix|, |tags|) ensures MergeOnIndex(matrix, tags)[k] == TaggedTopics(tags[k].tag, matrix[k]) {
      MergeSequentialAt(matrix, tags, k);
    }
  }

  /**
   * With one tag per document, the join pairs frame row `k` with document
   * `k`'s tag; the rows beyond the shorter of the two sides are dropped.
   */
  lemma MergeOnIndexAligned(matrix: seq<TopicVector>, tagLists: seq<seq<Id>>)
    requires SingleTags(tagLists)
    ensures |MergeOnIndex(matrix, ExplodeTags(tagLists))| == Min(|matrix|, |tagLists|)
    ensures forall k :: 0 <= k < Min(|matrix|, |tagLists|) ==>
      MergeOnIndex(matrix, ExplodeTags(tagLists))[k] == TaggedTopics(Some(tagLists[k][0]), matrix[k])
  {
    ExplodeSingleTags(tagLists);
    MergeSequential(matrix, ExplodeTags(tagLists));
  }

  /** The `tags` column of the tagged documents topic_model.py pickles. */
  function TagLists(tagged: seq<TopicModel.TaggedDocument>): (tls: seq<seq<Id>>)
    ensures |tls| == |tagged|
  {
    seq(|tagged|, k requires 0 <= k < |tagged| => tagged[k].tags)
  }

  /**
   * For the documents topic_model.py tags, frame row `k` is joined with the
   * id of group `k`, the document it was computed from.
   */
  lemma TaggedDocumentsAlign(groups: seq<TopicModel.Grouped>, lists: seq<TopicModel.TokenList>, matrix: seq<TopicVector>)
    requires |lists| == |groups|
    ensures |MergeOnIndex(matrix, ExplodeTags(TagLists(TopicModel.Tag(groups, lists))))| == Min(|matrix|, |groups|)
    ensures forall k :: 0 <= k < Min(|matrix|, |groups|) ==>
      MergeOnIndex(matrix, ExplodeTags(TagLists(TopicModel.Tag(groups, lists))))[k] == TaggedTopics(Some(groups[k].doc.id), matrix[k])
  {
    var tagged := TopicModel.Tag(groups, lists);
    var tls := TagLists(tagged);
    forall k | 0 <= k < |tls| ensures tls[k] == [groups[k].doc.id] {
      assert tls[k] == tagged[k].tags;
    }
    MergeOnIndexAligned(matrix, tls);
  }

  // topics_over_time.py:84-90: the distinct (id, date) rows of the cleaned speeches.

  /** An `(id, date)` row of the cleaned speeches. */
  datatype Dated = Dated(id: Id, date: Date)

  /**
   * Every distinct row once: the first occurrence of each is kept, in order.
   * The contract states the members and their distinctness; the order is the
   * body's.
   */
  function DropDuplicates(rows: seq<Dated>): (out: seq<Dated>)
    ensures forall r :: r in out <==> r in rows
    ensures forall i, j :: 0 <= i < j < |out| ==> out[i] != out[j]
  {
    if rows == [] then []
    else
      var init := rows[..|rows| - 1];
      var last := rows[|rows| - 1];
      assert rows == init + [last];
      var kept := DropDuplicates(init);
      if last in init then kept else kept + [last]
  }

  /** Rows that are already distinct come through unchanged. */
  lemma {:induction false} DropDuplicatesOfDistinct(rows: seq<Dated>)
    requires forall i, j :: 0 <= i < j < |rows| ==> rows[i] != rows[j]
    ensures DropDuplicates(rows) == rows
  {
    if rows != [] {
      var init := rows[..|rows| - 1];
      DropDuplicatesOfDistinct(init);
      assert rows == init + [rows[|rows| - 1]];
    }
  }

  // topics_over_time.py:95-96: the (id, date) rows joined with the topic rows whose tag is that id; the date and the ten weights are kept.

  /** A row of `df` before the year is added: a date and a topic row. */
  datatype DatedTopics = DatedTopics(date: Date, topics: TopicVector)

  /** The joined rows for one `(id, date)` row: one per topic row tagged with that id. */
  function MatchId(l: Dated, right: seq<TaggedTopics>): seq<DatedTopics>
  {
    if right == [] then []
    else (if right[0].tag == Some(l.id) then [DatedTopics(l.date, right[0].topics)] else []) + MatchId(l, right[1..])
  }

  /** The inner join of the dated ids with the tagged topic rows. */
  function MergeOnId(left: seq<Dated>, right: seq<TaggedTopics>): seq<DatedTopics>
  {
    if left == [] then [] else MatchId(left[0], right) + MergeOnId(left[1..], right)
  }

  /** The positions of the topic rows tagged with `id`. */
  function TaggedWith(right: seq<TaggedTopics>, id: Id): set<int>
  {
    set j | 0 <= j < |right| && right[j].tag == Some(id)
  }

  /** The (left row, topic row) position pairs whose id and tag agree. */
  function JoinPairs(left: seq<Dated>, right: seq<TaggedTopics>): set<(int, int)>
  {
    set i, j | 0 <= i < |left| && 0 <= j < |right| && right[j].tag == Some(left[i].id) :: (i, j)
  }

  lemma {:induction false} MatchIdSnoc(l: Dated, a: seq<TaggedTopics>, x: TaggedTopics)
    ensures MatchId(l, a + [x]) == MatchId(l, a) + MatchId(l, [x])
  {
    if a == [] {
      assert a + [x] == [x];
    } else {
      assert (a + [x])[0] == a[0] && (a + [x])[1..] == a[1..] + [x];
      MatchIdSnoc(l, a[1..], x);
    }
  }

  /** One joined row for every topic row tagged with the id, however many there are. */
  lemma {:induction false} MatchIdCount(l: Dated, right: seq<TaggedTopics>)
    ensures |MatchId(l, right)| == |TaggedWith(right, l.id)|
  {
    if right == [] {
      assert TaggedWith(right, l.id) == {};
    } else {
      var n := |right| - 1;
      var init := right[..n];
      MatchIdCount(l, init);
      assert right == init + [right[n]];
      MatchIdSnoc(l, init, right[n]);
      TaggedWithSnoc(init, right[n], l.id);
    }
  }

  /** One more topic row adds its own position to the tagged positions when its tag matches. */
  lemma TaggedWithSnoc(init: seq<TaggedTopics>, x: TaggedTopics, id: Id)
    ensures TaggedWith(init + [x], id) == TaggedWith(init, id) + (if x.tag == Some(id) then {|init|} else {})
    ensures |init| !in TaggedWith(init, id)
  {
    var right := init + [x];
    forall j | j in TaggedWith(right, id) && j < |init| ensures j in TaggedWith(init, id) {
      assert right[j] == init[j];
    }
    forall j | j in TaggedWith(init, id) ensures j in TaggedWith(right, id) {
      assert right[j] == init[j];
    }
  }

  lemma {:induction false} MatchIdMembers(l: Dated, right: seq<TaggedTopics>)
    ensures forall d :: d in MatchId(l, right) <==>
      exists t :: t in right && t.tag == Some(l.id) && d == DatedTopics(l.date, t.topics)
  {
    if right != [] {
      MatchIdMembers(l, right[1..]);
      forall d ensures d in MatchId(l, right) <==> exists t :: t in right && t.tag == Some(l.id) && d == DatedTopics(l.date, t.topics) {
        if exists t :: t in right && t.tag == Some(l.id) && d == DatedTopics(l.date, t.topics) {
          var t :| t in right && t.tag == Some(l.id) && d == DatedTopics(l.date, t.topics);
          if t != right[0] {
            assert t in right[1..];
          }
        }
      }
    }
  }

  /**
   * A joined row is exactly a date of some `(id, date)` row with the topic
   * row of a tag equal to that id: the rows on either side without a partner
   * are dropped, and NaN tags match nothing.
   */
  lemma {:induction false} MergeOnIdMembers(left: seq<Dated>, right: seq<TaggedTopics>)
    ensures forall d :: d in MergeOnId(left, right) <==>
      exists l, t :: l in left && t in right && t.tag == Some(l.id) && d == DatedTopics(l.date, t.topics)
  {
    if left != [] {
      MatchIdMembers(left[0], right);
      MergeOnIdMembers(left[1..], right);
      forall d ensures d in MergeOnId(left, right) <==>
        exists l, t :: l in left && t in right && t.tag == Some(l.id) && d == DatedTopics(l.date, t.topics)
      {
        if d in MatchId(left[0], right) {
          var t :| t in right && t.tag == Some(left[0].id) && d == DatedTopics(left[0].date, t.topics);
          assert left[0] in left;
        } else if d in MergeOnId(left[1..], right) {
          var l, t :| l in left[1..] && t in right && t.tag == Some(l.id) && d == DatedTopics(l.date, t.topics);
          assert l in left;
        }
        if exists l, t :: l in left && t in right && t.tag == Some(l.id) && d == DatedTopics(l.date, t.topics) {
          var l, t :| l in left && t in right && t.tag == Some(l.id) && d == DatedTopics(l.date, t.topics);
          if l != left[0] {
            assert l in left[1..];
          }
        }
      }
    }
  }

  lemma {:induction false} MergeOnIdSnoc(a: seq<Dated>, x: Dated, right: seq<TaggedTopics>)
    ensures MergeOnId(a + [x], right) == MergeOnId(a, right) + MatchId(x, right)
  {
    if a == [] {
      assert a + [x] == [x];
      assert MergeOnId([x], right) == MatchId(x, right) + MergeOnId([], right);
    } else {
      assert (a + [x])[0] == a[0] && (a + [x])[1..] == a[1..] + [x];
      MergeOnIdSnoc(a[1..], x, right);
    }
  }

  /** Pairing the tagged positions with one left row keeps their number. */
  lemma {:induction false} CardPairsWith(n: int, right: seq<TaggedTopics>, id: Id)
    ensures |set j | j in TaggedWith(right, id) :: (n, j)| == |TaggedWith(right, id)|
  {
    if right == [] {
      assert TaggedWith(right, id) == {};
      assert (set j | j in TaggedWith(right, id) :: (n, j)) == {};
    } else {
      var m := |right| - 1;
      var init := right[..m];
      CardPairsWith(n, init, id);
      assert right == init + [right[m]];
      TaggedWithSnoc(init, right[m], id);
      var s := TaggedWith(init, id);
      if right[m].tag == Some(id) {
        PairsWithAdd(n, s, m);
        assert TaggedWith(right, id) == s + {m};
        assert |s + {m}| == |s| + 1;
        assert |(set j | j in s :: (n, j)) + {(n, m)}| == |set j | j in s :: (n, j)| + 1;
      } else {
        assert TaggedWith(right, id) == s;
      }
    }
  }

  lemma PairsWithAdd(n: int, s: set<int>, m: int)
    requires m !in s
    ensures (set j | j in s + {m} :: (n, j)) == (set j | j in s :: (n, j)) + {(n, m)}
    ensures (n, m) !in (set j | j in s :: (n, j))
  {
  }

  /**
   * The inner join has one row for every matching pair of an `(id, date)` row
   * and a topic row: an id met twice on the left, or tagged twice on the
   * right, is joined as often.
   */
  lemma {:induction false} MergeOnIdCount(left: seq<Dated>, right: seq<TaggedTopics>)
    ensures |MergeOnId(left, right)| == |JoinPairs(left, right)|
  {
    if left == [] {
      assert JoinPairs(left, right) == {};
    } else {
      var n := |left| - 1;
      var init := left[..n];
      MergeOnIdCount(init, right);
      assert left == init + [left[n]];
      MergeOnIdSnoc(init, left[n], right);
      MatchIdCount(left[n], right);
      var t := TaggedWith(right, left[n].id);
      CardPairsWith(n, right, left[n].id);
      JoinPairsSnoc(init, left[n], right);
      var last := set j | j in t :: (n, j);
      assert JoinPairs(init, right) * last == {};
    }
  }

  lemma JoinPairsSnoc(init: seq<Dated>, x: Dated, right: seq<TaggedTopics>)
    ensures JoinPairs(init + [x], right)
         == JoinPairs(init, right) + set j | j in TaggedWith(right, x.id) :: (|init|, j)
  {
    var left := init + [x];
    var n := |init|;
    var last := set j | j in TaggedWith(right, x.id) :: (n, j);
    forall p | p in JoinPairs(left, right) ensures p in JoinPairs(init, right) + last {
      if p.0 < n {
        assert init[p.0] == left[p.0];
      } else {
        assert p.1 in TaggedWith(right, x.id);
      }
    }
    forall p | p in JoinPairs(init, right) ensures p in JoinPairs(left, right) {
      assert init[p.0] == left[p.0];
    }
    forall p | p in last ensures p in JoinPairs(left, right) {
      assert left[n] == x;
    }
  }

  /** An id with two different dates survives the deduplication twice, so its speech is joined, and counted, twice. */
  lemma DuplicateIdJoinsTwice(id: Id, d1: Date, d2: Date, v: TopicVector)
    requires d1 != d2
    ensures MergeOnId(DropDuplicates([Dated(id, d1), Dated(id, d2)]), [TaggedTopics(Some(id), v)])
         == [DatedTopics(d1, v), DatedTopics(d2, v)]
  {
    var rows := [Dated(id, d1), Dated(id, d2)];
    var right := [TaggedTopics(Some(id), v)];
    DropDuplicatesOfDistinct(rows);
    assert MatchId(rows[0], right) == [DatedTopics(d1, v)];
    assert MatchId(rows[1], right) == [DatedTopics(d2, v)];
    assert rows[1..] == [rows[1]] && rows[1..][1..] == [];
    assert MergeOnId(rows[1..], right) == [DatedTopics(d2, v)];
  }

  // topics_over_time.py:99: every row gets the year of its date.

  /** A row of `df` after line 99, its columns in frame order: date, the ten weights, year. */
  datatype YearRow = YearRow(date: Date, topics: TopicVector, year: int)

  function AddYear(rows: seq<DatedTopics>): (out: seq<YearRow>)
    ensures |out| == |rows|
    ensures forall k :: 0 <= k < |rows| ==>
      out[k].year == YearOf(rows[k].date) && out[k].date == rows[k].date && out[k].topics == rows[k].topics
  {
    seq(|rows|, k requires 0 <= k < |rows| => YearRow(rows[k].date, rows[k].topics, YearOf(rows[k].date)))
  }

  // Lines 104 to 128: rename the columns, then pick them in report order.

  /** A cell of `df`. */
  datatype Cell = DateCell(date: Date) | WeightCell(weight: real) | YearCell(year: int)

  datatype FrameError =
    | ColumnCountMismatch(expected: nat, given: nat)  // new column names of another length than the frame's width
    | MissingColumn(name: string)                     // a selection naming a column the frame lacks

  /** The column names of `df` after line 99. */
  function MergedColumns(): seq<string>
  {
    ["date"] + ColumnNames() + ["year"]
  }

  /** The names given at lines 104 to 115. */
  const RenamedColumns: seq<string> :=
    ["date", "topic 1", "topic 2", "topic 3", "topic 4", "topic 5",
     "topic 6", "topic 7", "topic 8", "topic 9", "topic 10", "year"]

  /** The selection of lines 117 to 128. */
  const ReportColumns: seq<string> :=
    ["date", "year", "topic 1", "topic 2", "topic 3", "topic 4", "topic 5",
     "topic 6", "topic 7", "topic 8", "topic 9", "topic 10"]

  /** Assigning new column names: pandas accepts a list only of the frame's width. */
  function SetColumns(columns: seq<string>, names: seq<string>): (r: Result<seq<string>, FrameError>)
    ensures r.Ok? <==> |names| == |columns|
    ensures r.Ok? ==> r.value == names
    ensures r.Err? ==> r.error == ColumnCountMismatch(|columns|, |names|)
  {
    if |names| == |columns| then Ok(names) else Err(ColumnCountMismatch(|columns|, |names|))
  }

  /** Selecting columns by name on one row: the cells of the named columns in the order named; an unknown name is a KeyError. */
  function SelectColumns<V>(columns: seq<string>, row: seq<V>, names: seq<string>): Result<seq<V>, FrameError>
    requires |row| == |columns|
  {
    if names == [] then Ok([])
    else match IndexOf(columns, names[0])
      case None => Err(MissingColumn(names[0]))
      case Some(c) =>
        match SelectColumns(columns, row, names[1..])
        case Err(e) => Err(e)
        case Ok(rest) => Ok([row[c]] + rest)
  }

  /**
   * The selection goes through exactly when every name is a column; it then
   * holds, for each name in order, the cell of the first column so named.
   */
  lemma {:induction false} SelectColumnsSpec<V>(columns: seq<string>, row: seq<V>, names: seq<string>)
    requires |row| == |columns|
    ensures var r := SelectColumns(columns, row, names);
      && (r.Ok? <==> forall n :: n in names ==> n in columns)
      && (r.Ok? ==> |r.value| == |names|)
      && (r.Ok? ==> forall j :: 0 <= j < |names| ==>
            IndexOf(columns, names[j]).Some? && r.value[j] == row[IndexOf(columns, names[j]).value])
      && (r.Err? ==> exists j :: 0 <= j < |names| && r.error == MissingColumn(names[j]) && names[j] !in columns)
  {
    if names != [] {
      SelectColumnsSpec(columns, row, names[1..]);
      assert forall n :: n in names ==> n == names[0] || n in names[1..];
      var r := SelectColumns(columns, row, names);
      if r.Err? && names[0] in columns {
        var j :| 0 <= j < |names[1..]| && r.error == MissingColumn(names[1..][j]) && names[1..][j] !in columns;
        assert names[j + 1] == names[1..][j];
      }
      if r.Ok? {
        var rest := SelectColumns(columns, row, names[1..]).value;
        forall j | 1 <= j < |names| ensures r.value[j] == row[IndexOf(columns, names[j]).value] {
          assert names[j] == names[1..][j - 1];
          assert r.value[j] == rest[j - 1];
        }
      }
    }
  }

  predicate DistinctNames(names: seq<string>)
  {
    forall i, j :: 0 <= i < j < |names| ==> names[i] != names[j]
  }

  /** Selecting two lists of names one after the other selects their concatenation. */
  lemma {:induction false} SelectAppend<V>(columns: seq<string>, row: seq<V>, a: seq<string>, b: seq<string>)
    requires |row| == |columns|
    requires SelectColumns(columns, row, a).Ok? && SelectColumns(columns, row, b).Ok?
    ensures SelectColumns(columns, row, a + b)
         == Ok(SelectColumns(columns, row, a).value + SelectColumns(columns, row, b).value)
  {
    if a != [] {
      assert (a + b)[0] == a[0] && (a + b)[1..] == a[1..] + b;
      var c := IndexOf(columns, a[0]);
      assert c.Some?;
      assert SelectColumns(columns, row, a[1..]).Ok?;
      SelectAppend(columns, row, a[1..], b);
      var va := SelectColumns(columns, row, a[1..]).value;
      var vb := SelectColumns(columns, row, b).value;
      assert SelectColumns(columns, row, a).value == [row[c.value]] + va;
      assert SelectColumns(columns, row, a + b) == Ok([row[c.value]] + (va + vb));
      assert [row[c.value]] + (va + vb) == ([row[c.value]] + va) + vb;
    } else {
      assert a + b == b;
      var vb := SelectColumns(columns, row, b).value;
      assert SelectColumns(columns, row, a).value == [];
      assert [] + vb == vb;
    }
  }

  /** Over distinct column names, selecting a run of the columns gives the cells of that run. */
  lemma {:induction false} SelectRun<V>(columns: seq<string>, row: seq<V>, i: nat, j: nat)
    requires |row| == |columns| && DistinctNames(columns)
    requires i <= j <= |columns|
    ensures SelectColumns(columns, row, columns[i..j]) == Ok(row[i..j])
    decreases j - i
  {
    if i < j {
      SelectRun(columns, row, i + 1, j);
      var c := IndexOf(columns, columns[i]);
      assert c.Some? && columns[c.value] == columns[i];
      assert c.value == i;
      assert columns[i..j][0] == columns[i] && columns[i..j][1..] == columns[i + 1..j];
      assert row[i..j] == [row[i]] + row[i + 1..j];
    } else {
      assert columns[i..j] == [] && row[i..j] == [];
    }
  }

  /** The cells of a row in the order of `MergedColumns`. */
  function YearCells(r: YearRow): (cells: seq<Cell>)
    ensures |cells| == |MergedColumns()|
  {
    [DateCell(r.date)] + Weights(r.topics) + [YearCell(r.year)]
  }

  function Weights(v: TopicVector): (cells: seq<Cell>)
    ensures |cells| == TopicColumns
  {
    seq(TopicColumns, t requires 0 <= t < TopicColumns => WeightCell(v[t]))
  }

  lemma RenamedColumnsDistinct()
    ensures DistinctNames(RenamedColumns)
  {
  }

  /** Column `str(i)` of the frame is column `i + 1`, and it is renamed `topic {i+1}`. */
  lemma TopicLabels()
    ensures MergedColumns()[1..1 + TopicColumns] == ColumnNames()
    ensures forall i :: 1 <= i <= TopicColumns ==> RenamedColumns[i] == "topic " + IntToString(i)
  {
    assert MergedColumns()[1..1 + TopicColumns] == ColumnNames();
    assert IntToString(1) == "1" && IntToString(2) == "2" && IntToString(3) == "3";
    assert IntToString(4) == "4" && IntToString(5) == "5" && IntToString(6) == "6";
    assert IntToString(7) == "7" && IntToString(8) == "8" && IntToString(9) == "9";
    assert IntToString(10) == Decimal(1) + [DigitChar(0)] == "10";
  }

  /** Over twelve distinct names, moving the last column to second place moves its cell likewise. */
  lemma SelectLastSecond<V>(cols: seq<string>, cells: seq<V>)
    requires |cols| == |cells| == 12 && DistinctNames(cols)
    ensures SelectColumns(cols, cells, cols[0..1] + cols[11..12] + cols[1..11])
         == Ok(cells[0..1] + cells[11..12] + cells[1..11])
  {
    SelectRun(cols, cells, 0, 1);
    SelectRun(cols, cells, 11, 12);
    SelectRun(cols, cells, 1, 11);
    SelectAppend(cols, cells, cols[0..1], cols[11..12]);
    SelectAppend(cols, cells, cols[0..1] + cols[11..12], cols[1..11]);
  }

  /** The selection lists date, year and then the ten weights, each value unchanged. */
  lemma ReportSelection(r: YearRow)
    ensures SelectColumns(RenamedColumns, YearCells(r), ReportColumns)
         == Ok([DateCell(r.date), YearCell(r.year)] + Weights(r.topics))
  {
    RenamedColumnsDistinct();
    ReportColumnsOrder();
    SelectLastSecond(RenamedColumns, YearCells(r));
    YearCellsParts(r);
  }

  lemma YearCellsParts(r: YearRow)
    ensures YearCells(r)[0..1] + YearCells(r)[11..12] + YearCells(r)[1..11]
         == [DateCell(r.date), YearCell(r.year)] + Weights(r.topics)
  {
    var cells := YearCells(r);
    assert cells[0..1] == [DateCell(r.date)];
    assert cells[11..12] == [YearCell(r.year)];
    assert cells[1..11] == Weights(r.topics);
  }

  lemma ReportColumnsOrder()
    ensures ReportColumns == RenamedColumns[0..1] + RenamedColumns[11..12] + RenamedColumns[1..11]
  {
  }

  /**
   * The renaming fits the frame's twelve columns, names column `str(i)`
   * `topic {i+1}`, and the selection keeps every value.
   */
  lemma Relabel(r: YearRow)
    ensures SetColumns(MergedColumns(), RenamedColumns) == Ok(RenamedColumns)
    ensures MergedColumns()[1..1 + TopicColumns] == ColumnNames()
    ensures forall i :: 1 <= i <= TopicColumns ==> RenamedColumns[i] == "topic " + IntToString(i)
    ensures SelectColumns(RenamedColumns, YearCells(r), ReportColumns)
         == Ok([DateCell(r.date), YearCell(r.year)] + Weights(r.topics))
  {
    TopicLabels();
    ReportSelection(r);
  }

  // topics_over_time.py:133: every row gets a count of 1.

  /** A row of `df` in report order, with its count. */
  datatype CountedRow = CountedRow(date: Date, year: int, topics: TopicVector, count: int)

  function AddCount(rows: seq<YearRow>): (out: seq<CountedRow>)
    ensures |out| == |rows|
    ensures forall k :: 0 <= k < |rows| ==> out[k].count == 1
    ensures forall k :: 0 <= k < |rows| ==>
      out[k].date == rows[k].date && out[k].year == rows[k].year && out[k].topics == rows[k].topics
  {
    seq(|rows|, k requires 0 <= k < |rows| => CountedRow(rows[k].date, rows[k].year, rows[k].topics, 1))
  }

  // topics_over_time.py:138-143: per year, the counts and each topic's weights are added up.

  function YearsOf(rows: seq<CountedRow>): seq<int>
  {
    seq(|rows|, k requires 0 <= k < |rows| => rows[k].year)
  }

  /** The rows of one year, each as often as it occurs. */
  function InYear(rows: seq<CountedRow>, y: int): (g: seq<CountedRow>)
    ensures forall r :: r in g <==> r in rows && r.year == y
    ensures forall r :: multiset(g)[r] == if r.year == y then multiset(rows)[r] else 0
  {
    if rows == [] then []
    else
      assert rows == [rows[0]] + rows[1..];
      (if rows[0].year == y then [rows[0]] else []) + InYear(rows[1..], y)
  }

  function CountTotal(rows: seq<CountedRow>): int
  {
    if rows == [] then 0 else rows[0].count + CountTotal(rows[1..])
  }

  function ColumnSum(rows: seq<CountedRow>, t: nat): real
    requires t < TopicColumns
  {
    if rows == [] then 0.0 else rows[0].topics[t] + ColumnSum(rows[1..], t)
  }

  function ColumnSums(rows: seq<CountedRow>): TopicVector
  {
    seq(TopicColumns, t requires 0 <= t < TopicColumns => ColumnSum(rows, t))
  }

  /** A row of `sums`: a year, the count of its rows and the sums of its weights. */
  datatype YearTotal = YearTotal(year: int, count: int, sums: TopicVector)

  /** The groups, ascending by year. */
  function GroupSums(rows: seq<CountedRow>): seq<YearTotal>
  {
    var years := SortedKeys(YearsOf(rows), IntLess);
    seq(|years|, k requires 0 <= k < |years| =>
      YearTotal(years[k], CountTotal(InYear(rows, years[k])), ColumnSums(InYear(rows, years[k]))))
  }

  function TotalYears(totals: seq<YearTotal>): seq<int>
  {
    seq(|totals|, k requires 0 <= k < |totals| => totals[k].year)
  }

  /** The groups come in strictly ascending year order, one for every year that has a row and for no other. */
  lemma GroupSumsYears(rows: seq<CountedRow>)
    ensures StrictlySorted(TotalYears(GroupSums(rows)), IntLess)
    ensures forall y :: y in TotalYears(GroupSums(rows)) <==> y in YearsOf(rows)
  {
    IntLessIsStrictTotalOrder();
    SortedKeysSpec(YearsOf(rows), IntLess);
    assert TotalYears(GroupSums(rows)) == SortedKeys(YearsOf(rows), IntLess);
  }

  /** Rows that each count 1 add up to their number. */
  lemma {:induction false} CountTotalOfOnes(rows: seq<CountedRow>)
    requires forall k :: 0 <= k < |rows| ==> rows[k].count == 1
    ensures CountTotal(rows) == |rows|
  {
    if rows != [] {
      CountTotalOfOnes(rows[1..]);
    }
  }

  lemma InYearOfOnes(rows: seq<CountedRow>, y: int)
    requires forall k :: 0 <= k < |rows| ==> rows[k].count == 1
    ensures forall k :: 0 <= k < |InYear(rows, y)| ==> InYear(rows, y)[k].count == 1
  {
    forall k | 0 <= k < |InYear(rows, y)| ensures InYear(rows, y)[k].count == 1 {
      assert InYear(rows, y)[k] in rows;
    }
  }

  /** With every count 1, each year's count is its number of rows, and it is at least 1. */
  lemma GroupCounts(rows: seq<CountedRow>)
    requires forall k :: 0 <= k < |rows| ==> rows[k].count == 1
    ensures forall k :: 0 <= k < |GroupSums(rows)| ==>
      GroupSums(rows)[k].count == |InYear(rows, GroupSums(rows)[k].year)| >= 1
  {
    var totals := GroupSums(rows);
    GroupSumsYears(rows);
    forall k | 0 <= k < |totals| ensures totals[k].count == |InYear(rows, totals[k].year)| >= 1 {
      var y := totals[k].year;
      assert TotalYears(totals)[k] == y;
      assert totals[k].count == CountTotal(InYear(rows, y));
      YearGroupCount(rows, y);
    }
  }

  /** A year that has a row counts its rows, and at least one. */
  lemma YearGroupCount(rows: seq<CountedRow>, y: int)
    requires forall k :: 0 <= k < |rows| ==> rows[k].count == 1
    requires y in YearsOf(rows)
    ensures CountTotal(InYear(rows, y)) == |InYear(rows, y)| >= 1
  {
    var m :| 0 <= m < |rows| && YearsOf(rows)[m] == y;
    assert rows[m] in InYear(rows, y);
    InYearOfOnes(rows, y);
    CountTotalOfOnes(InYear(rows, y));
  }

  // Lines 148 to 152: the topic sums divided by the count, per year.

  /** A row of the result: a year and its mean topic weights. */
  datatype YearMean = YearMean(year: int, means: TopicVector)

  /** topics_over_time.py:148-152: each year's topic sums divided by that year's count. */
  function DivideByCount(totals: seq<YearTotal>): seq<YearMean>
    requires forall k :: 0 <= k < |totals| ==> totals[k].count != 0
  {
    seq(|totals|, k requires 0 <= k < |totals| =>
      YearMean(totals[k].year, seq(TopicColumns, t requires 0 <= t < TopicColumns => totals[k].sums[t] / totals[k].count as real)))
  }

  /** Lines 133 to 152 on rows that each count 1. */
  function Shares(rows: seq<CountedRow>): seq<YearMean>
    requires forall k :: 0 <= k < |rows| ==> rows[k].count == 1
  {
    GroupCounts(rows);
    DivideByCount(GroupSums(rows))
  }

  function MeanYears(means: seq<YearMean>): seq<int>
  {
    seq(|means|, k requires 0 <= k < |means| => means[k].year)
  }

  /**
   * One result row per year present, in strictly ascending order, and each
   * weight is the mean of that topic's weight over the year's rows.
   */
  lemma SharesAreMeans(rows: seq<CountedRow>)
    requires forall k :: 0 <= k < |rows| ==> rows[k].count == 1
    ensures StrictlySorted(MeanYears(Shares(rows)), IntLess)
    ensures forall y :: y in MeanYears(Shares(rows)) <==> y in YearsOf(rows)
    ensures forall k :: 0 <= k < |Shares(rows)| ==> InYear(rows, Shares(rows)[k].year) != []
    ensures forall k, t :: 0 <= k < |Shares(rows)| && 0 <= t < TopicColumns ==>
      Shares(rows)[k].means[t] == ColumnSum(InYear(rows, Shares(rows)[k].year), t) / |InYear(rows, Shares(rows)[k].year)| as real
  {
    GroupSumsYears(rows);
    GroupCounts(rows);
    var totals := GroupSums(rows);
    assert MeanYears(Shares(rows)) == TotalYears(totals);
    forall k, t | 0 <= k < |Shares(rows)| && 0 <= t < TopicColumns
      ensures Shares(rows)[k].means[t] == ColumnSum(InYear(rows, Shares(rows)[k].year), t) / |InYear(rows, Shares(rows)[k].year)| as real
    {
      assert Shares(rows)[k].year == totals[k].year;
      assert Shares(rows)[k].means[t] == totals[k].sums[t] / totals[k].count as real;
    }
  }

  /** A year with a single row reports that row's weights. */
  lemma SingleRowYear(rows: seq<CountedRow>, k: nat, r: CountedRow)
    requires forall k :: 0 <= k < |rows| ==> rows[k].count == 1
    requires k < |Shares(rows)| && InYear(rows, Shares(rows)[k].year) == [r]
    ensures Shares(rows)[k].means == r.topics
  {
    SharesAreMeans(rows);
    forall t | 0 <= t < TopicColumns ensures Shares(rows)[k].means[t] == r.topics[t] {
      assert ColumnSum([r], t) == r.topics[t] + ColumnSum([r][1..], t);
      assert [r][1..] == [];
    }
  }

  lemma {:induction false} SumOfSums(a: seq<real>, b: seq<real>)
    requires |a| == |b|
    ensures Sum(seq(|a|, i requires 0 <= i < |a| => a[i] + b[i])) == Sum(a) + Sum(b)
  {
    if a != [] {
      SumOfSums(a[1..], b[1..]);
      assert seq(|a|, i requires 0 <= i < |a| => a[i] + b[i])[1..]
          == seq(|a[1..]|, i requires 0 <= i < |a[1..]| => a[1..][i] + b[1..][i]);
    }
  }

  lemma {:induction false} SumScaled(a: seq<real>, c: real)
    requires c != 0.0
    ensures Sum(seq(|a|, i requires 0 <= i < |a| => a[i] / c)) == Sum(a) / c
  {
    if a != [] {
      SumScaled(a[1..], c);
      assert seq(|a|, i requires 0 <= i < |a| => a[i] / c)[1..]
          == seq(|a[1..]|, i requires 0 <= i < |a[1..]| => a[1..][i] / c);
      assert a[0] / c + Sum(a[1..]) / c == (a[0] + Sum(a[1..])) / c;
    }
  }

  /** The column sums of some rows add up to the sum of their row totals. */
  lemma {:induction false} ColumnSumsTotal(rows: seq<CountedRow>)
    requires forall k :: 0 <= k < |rows| ==> Sum(rows[k].topics) == 1.0
    ensures Sum(ColumnSums(rows)) == |rows| as real
  {
    if rows == [] {
      assert ColumnSums(rows) == seq(TopicColumns, _ => 0.0);
      ZeroSum(TopicColumns);
    } else {
      ColumnSumsTotal(rows[1..]);
      var v := rows[0].topics;
      var rest := ColumnSums(rows[1..]);
      SumOfSums(v, rest);
      assert ColumnSums(rows) == seq(|v|, i requires 0 <= i < |v| => v[i] + rest[i]);
    }
  }

  /** `v` divided by `c`, weight by weight. */
  function Scale(v: TopicVector, c: real): TopicVector
    requires c != 0.0
  {
    seq(TopicColumns, t requires 0 <= t < TopicColumns => v[t] / c)
  }

  /** The mean weights of a year whose rows each add up to 1 add up to 1. */
  lemma MeanOfUnitRows(g: seq<CountedRow>)
    requires g != []
    requires forall k :: 0 <= k < |g| ==> Sum(g[k].topics) == 1.0
    ensures Sum(Scale(ColumnSums(g), |g| as real)) == 1.0
  {
    ColumnSumsTotal(g);
    var s := ColumnSums(g);
    var n := |g| as real;
    SumScaled(s, n);
    SelfQuotient(n);
    assert Scale(s, n) == seq(|s|, i requires 0 <= i < |s| => s[i] / n);
  }

  lemma SelfQuotient(x: real)
    requires x != 0.0
    ensures x / x == 1.0
  {
  }

  /** When every row's weights add up to 1, so do every year's mean weights. */
  lemma SharesSumToOne(rows: seq<CountedRow>)
    requires forall k :: 0 <= k < |rows| ==> rows[k].count == 1
    requires forall k :: 0 <= k < |rows| ==> Sum(rows[k].topics) == 1.0
    ensures forall k :: 0 <= k < |Shares(rows)| ==> Sum(Shares(rows)[k].means) == 1.0
  {
    SharesAreMeans(rows);
    forall k | 0 <= k < |Shares(rows)| ensures Sum(Shares(rows)[k].means) == 1.0 {
      var g := InYear(rows, Shares(rows)[k].year);
      forall m | 0 <= m < |g| ensures Sum(g[m].topics) == 1.0 {
        assert g[m] in rows;
      }
      forall t | 0 <= t < TopicColumns ensures Shares(rows)[k].means[t] == Scale(ColumnSums(g), |g| as real)[t] {
      }
      assert Shares(rows)[k].means == Scale(ColumnSums(g), |g| as real);
      MeanOfUnitRows(g);
    }
  }

  // The whole script.

  /** Lines 64 to 152 applied to the scattered frame. */
  function Aggregate(matrix: seq<TopicVector>, tagLists: seq<seq<Id>>, cleaned: seq<Dated>): seq<YearMean>
  {
    var topics := MergeOnIndex(matrix, ExplodeTags(tagLists));
    var dated := MergeOnId(DropDuplicates(cleaned), topics);
    Shares(AddCount(AddYear(dated)))
  }

  /** The scatter, then the aggregation; the scatter's KeyError stops the script. */
  function TopicsOverTime(docTopics: seq<seq<TopicPair>>, tagLists: seq<seq<Id>>, cleaned: seq<Dated>): Result<seq<YearMean>, ScatterError>
  {
    match Scattered(docTopics)
    case Err(e) => Err(e)
    case Ok(matrix) => Ok(Aggregate(matrix, tagLists, cleaned))
  }

  /** Runs the script on the model's document topics, the tagged documents' tags and the cleaned speeches' ids and dates. */
  method ComputeTopicsOverTime(docTopics: seq<seq<TopicPair>>, tagLists: seq<seq<Id>>, cleaned: seq<Dated>)
    returns (r: Result<seq<YearMean>, ScatterError>)
    ensures r == TopicsOverTime(docTopics, tagLists, cleaned)
  {
    var a := NewTopicFrame(|docTopics|);
    var outcome := Scatter(a, docTopics);
    if outcome.Fail? {
      return Err(outcome.error);
    }
    var frame: seq<TopicVector> := Matrix(a);
    return Ok(Aggregate(frame, tagLists, cleaned));
  }

  /**
   * One document of 2020 with the pairs `(0, 0.7)` and `(3, 0.3)`: its dense
   * row is `[0.7, 0, 0, 0.3, 0, 0, 0, 0, 0, 0]`, and so is the year's result.
   */
  lemma ExampleSingleDocument(d: Date)
    requires YearOf(d) == 2020
    ensures DenseRow([TopicPair(0, 0.7), TopicPair(3, 0.3)]) == [0.7, 0.0, 0.0, 0.3, 0.0, 0.0, 0.0, 0.0, 0.0, 0.0]
    ensures Shares([CountedRow(d, 2020, DenseRow([TopicPair(0, 0.7), TopicPair(3, 0.3)]), 1)])
         == [YearMean(2020, [0.7, 0.0, 0.0, 0.3, 0.0, 0.0, 0.0, 0.0, 0.0, 0.0])]
  {
    var pairs := [TopicPair(0, 0.7), TopicPair(3, 0.3)];
    var v := DenseRow(pairs);
    forall t | 0 <= t < TopicColumns ensures v[t] == [0.7, 0.0, 0.0, 0.3, 0.0, 0.0, 0.0, 0.0, 0.0, 0.0][t] {
      if t == 0 {
        LastWriteWins(pairs, 0, 0);
      } else if t == 3 {
        LastWriteWins(pairs, 3, 1);
      } else {
        AbsentTopicIsZero(pairs, t);
      }
    }
    var rows := [CountedRow(d, 2020, v, 1)];
    SharesAreMeans(rows);
    assert YearsOf(rows) == [2020];
    assert 2020 in MeanYears(Shares(rows));
    assert |Shares(rows)| == 1 by {
      assert SortedKeys(YearsOf(rows), IntLess) == [2020];
    }
    assert InYear(rows, 2020) == rows;
    SingleRowYear(rows, 0, rows[0]);
  }

  /** A topic index of 10 or more (a model with more than ten topics) stops the script with a KeyError. */
  lemma ExampleTopicTen(docTopics: seq<seq<TopicPair>>, tagLists: seq<seq<Id>>, cleaned: seq<Dated>)
    requires |docTopics| > 0 && docTopics[0] == [TopicPair(10, 1.0)]
    ensures TopicsOverTime(docTopics, tagLists, cleaned) == Err(UnknownTopic(0, 10))
  {
  }

  lemma {:induction false} ScanFromShort(docs: seq<seq<TopicPair>>, i: nat)
    requires i <= |docs| < ScatterRows
    requires forall r, m :: i <= r < |docs| && 0 <= m < |docs[r]| ==> InRange(docs[r][m].topic)
    ensures ScanFrom(docs, i) == Some(MissingDocument(|docs|))
    decreases |docs| - i
  {
    if i < |docs| {
      ScanFromShort(docs, i + 1);
    }
  }

  /** Fewer than 693 documents stop the script at the first missing row. */
  lemma ShortCorpusFails(docTopics: seq<seq<TopicPair>>, tagLists: seq<seq<Id>>, cleaned: seq<Dated>)
    requires |docTopics| < ScatterRows
    requires forall r, m :: 0 <= r < |docTopics| && 0 <= m < |docTopics[r]| ==> InRange(docTopics[r][m].topic)
    ensures TopicsOverTime(docTopics, tagLists, cleaned) == Err(MissingDocument(|docTopics|))
  {
    ScanFromShort(docTopics, 0);
  }
}
