/**
 * The dense document-by-topic frame of topics_over_time.py (lines 46 to 62).
 * The fitted model's `get_document_topics` gives each document a sparse list
 * of `(topic_index, weight)` pairs; the script makes a frame with one row per
 * document and the ten columns `'0'` … `'9'`, all 0, and then, for the rows
 * 0 to 692, writes every pair into column `str(topic_index)` of its row.
 * Weights are exact reals.
 */
module TopicMatrix {
  import opened Wrappers
  import opened Text

  /** The frame always gets exactly ten topic columns, whatever topic count the model was fitted with. */
  const TopicColumns: nat := 10

  /** The scatter loop's bound, a literal in the script (`range(693)`). */
  const ScatterRows: nat := 693

  /** A dense row: one weight per topic column. */
  type TopicVector = v: seq<real> | |v| == TopicColumns witness seq(10, _ => 0.0)

  /** One `(topic_index, weight)` pair of `get_document_topics`. */
  datatype TopicPair = TopicPair(topic: int, weight: real)

  datatype ScatterError =
    | MissingDocument(row: nat)           // the loop reads a document row the model output lacks
    | UnknownTopic(row: nat, topic: int)  // a topic index whose decimal string names no column

  /** The topic column names, `str(i)` for `i` in `range(10)`. */
  function ColumnNames(): (names: seq<string>)
    ensures |names| == TopicColumns
  {
    seq(TopicColumns, i requires 0 <= i < TopicColumns => IntToString(i))
  }

  /** topics_over_time.py:54-55: a loop adds the ten empty columns named by the decimal strings of 0 to 9. */
  method BuildColumns() returns (names: seq<string>)
    ensures |names| == TopicColumns
    ensures forall i :: 0 <= i < TopicColumns ==> names[i] == IntToString(i)
  {
    names := [];
    for i := 0 to TopicColumns
      invariant |names| == i
      invariant forall k :: 0 <= k < i ==> names[k] == IntToString(k)
    {
      names := names + [IntToString(i)];
    }
  }

  /** The position of the first column called `name`. */
  function IndexOf(names: seq<string>, name: string): (r: Option<nat>)
    ensures r.None? <==> name !in names
    ensures r.Some? ==> r.value < |names| && names[r.value] == name
    ensures r.Some? ==> forall k :: 0 <= k < r.value ==> names[k] != name
  {
    if names == [] then None
    else if names[0] == name then Some(0)
    else match IndexOf(names[1..], name)
      case None => None
      case Some(k) => Some(k + 1)
  }

  lemma ColumnNameIsDigit(i: nat)
    requires i < TopicColumns
    ensures ColumnNames()[i] == [DigitChar(i)]
  {
  }

  /** `str(t)` names a topic column exactly when `0 <= t < 10`, and then it is column `t`. */
  lemma ColumnLookup(t: int)
    ensures IndexOf(ColumnNames(), IntToString(t)) == if 0 <= t < TopicColumns then Some(t) else None
  {
    var names := ColumnNames();
    if 0 <= t < TopicColumns {
      forall k | 0 <= k < t ensures names[k] != names[t] {
        ColumnNameIsDigit(k);
        ColumnNameIsDigit(t);
        assert names[k][0] != names[t][0];
      }
      var r := IndexOf(names, IntToString(t));
      assert names[t] == IntToString(t);
      assert r.Some?;
      ColumnNameIsDigit(r.value);
      ColumnNameIsDigit(t);
      assert names[r.value][0] == names[t][0];
    } else {
      var s := IntToString(t);
      forall k | 0 <= k < TopicColumns ensures names[k] != s {
        ColumnNameIsDigit(k);
        if t < 0 {
          assert s[0] == '-';
        } else {
          assert |s| >= 2;
        }
      }
    }
  }

  /** The column a pair for topic `t` is written to, or none (a KeyError). */
  function ColumnOf(t: int): (c: Option<nat>)
    ensures c == if 0 <= t < TopicColumns then Some(t) else None
  {
    ColumnLookup(t);
    IndexOf(ColumnNames(), IntToString(t))
  }

  /** The weight of the last pair for topic `t`, or 0 when there is none. */
  function LastWeight(pairs: seq<TopicPair>, t: int): real
  {
    if pairs == [] then 0.0
    else if pairs[|pairs| - 1].topic == t then pairs[|pairs| - 1].weight
    else LastWeight(pairs[..|pairs| - 1], t)
  }

  /** A document's row after the scatter: each column holds the last weight written to it. */
  function DenseRow(pairs: seq<TopicPair>): TopicVector
  {
    seq(TopicColumns, c requires 0 <= c < TopicColumns => LastWeight(pairs, c))
  }

  /** An untouched row of the frame. */
  function ZeroRow(): TopicVector
  {
    seq(TopicColumns, _ => 0.0)
  }

  /** Of several pairs for one topic, the last one's weight is the one that stays. */
  lemma {:induction false} LastWriteWins(pairs: seq<TopicPair>, t: int, k: nat)
    requires k < |pairs| && pairs[k].topic == t
    requires forall m :: k < m < |pairs| ==> pairs[m].topic != t
    ensures LastWeight(pairs, t) == pairs[k].weight
  {
    if k < |pairs| - 1 {
      var init := pairs[..|pairs| - 1];
      assert init[k] == pairs[k];
      LastWriteWins(init, t, k);
    }
  }

  /** A topic the list does not mention keeps its 0. */
  lemma {:induction false} AbsentTopicIsZero(pairs: seq<TopicPair>, t: int)
    requires forall m :: 0 <= m < |pairs| ==> pairs[m].topic != t
    ensures LastWeight(pairs, t) == 0.0
  {
    if pairs != [] {
      var init := pairs[..|pairs| - 1];
      assert forall m :: 0 <= m < |init| ==> init[m] == pairs[m];
      AbsentTopicIsZero(init, t);
    }
  }

  function Sum(s: seq<real>): real
  {
    if s == [] then 0.0 else s[0] + Sum(s[1..])
  }

  /** The weights of a sparse list, added up. */
  function WeightSum(pairs: seq<TopicPair>): real
  {
    if pairs == [] then 0.0 else WeightSum(pairs[..|pairs| - 1]) + pairs[|pairs| - 1].weight
  }

  lemma {:induction false} SumUpdate(s: seq<real>, k: nat, v: real)
    requires k < |s|
    ensures Sum(s[k := v]) == Sum(s) - s[k] + v
  {
    if k == 0 {
      assert s[k := v][1..] == s[1..];
    } else {
      assert s[k := v][1..] == s[1..][k - 1 := v];
      SumUpdate(s[1..], k - 1, v);
    }
  }

  /** The topics of a list are distinct and each names a column. */
  predicate DistinctTopics(pairs: seq<TopicPair>)
  {
    && (forall m :: 0 <= m < |pairs| ==> 0 <= pairs[m].topic < TopicColumns)
    && (forall m, n :: 0 <= m < n < |pairs| ==> pairs[m].topic != pairs[n].topic)
  }

  /** With distinct, valid topics, the dense row carries exactly the sparse list's weight. */
  lemma {:induction false} DenseRowSum(pairs: seq<TopicPair>)
    requires DistinctTopics(pairs)
    ensures Sum(DenseRow(pairs)) == WeightSum(pairs)
  {
    if pairs == [] {
      assert DenseRow(pairs) == ZeroRow();
      ZeroSum(TopicColumns);
    } else {
      var init := pairs[..|pairs| - 1];
      var last := pairs[|pairs| - 1];
      assert forall m :: 0 <= m < |init| ==> init[m] == pairs[m];
      assert DistinctTopics(init);
      DenseRowSum(init);
      assert DenseRow(pairs) == DenseRow(init)[last.topic := last.weight];
      AbsentTopicIsZero(init, last.topic);
      SumUpdate(DenseRow(init), last.topic, last.weight);
    }
  }

  lemma {:induction false} ZeroSum(n: nat)
    ensures Sum(seq(n, _ => 0.0)) == 0.0
  {
    if n > 0 {
      assert seq(n, _ => 0.0)[1..] == seq(n - 1, _ => 0.0);
      ZeroSum(n - 1);
    }
  }

  predicate InRange(t: int)
  {
    0 <= t < TopicColumns
  }

  /** The topic of the first pair that names no column. */
  function FirstUnknownTopic(pairs: seq<TopicPair>): (r: Option<int>)
    ensures r.None? <==> forall m :: 0 <= m < |pairs| ==> InRange(pairs[m].topic)
    ensures forall m :: (0 <= m < |pairs| && !InRange(pairs[m].topic)
      && forall k :: 0 <= k < m ==> InRange(pairs[k].topic)) ==> r == Some(pairs[m].topic)
  {
    if pairs == [] then None
    else if !InRange(pairs[0].topic) then Some(pairs[0].topic)
    else
      var rest := pairs[1..];
      var r := FirstUnknownTopic(rest);
      assert forall m :: 0 <= m < |rest| ==> rest[m] == pairs[m + 1];
      assert forall m :: (0 <= m < |pairs| && !InRange(pairs[m].topic)
        && forall k :: 0 <= k < m ==> InRange(pairs[k].topic)) ==> r == Some(pairs[m].topic) by {
        forall m | 0 <= m < |pairs| && !InRange(pairs[m].topic) && (forall k :: 0 <= k < m ==> InRange(pairs[k].topic))
          ensures r == Some(pairs[m].topic)
        {
          assert rest[m - 1] == pairs[m];
          assert forall k :: 0 <= k < m - 1 ==> InRange(rest[k].topic);
        }
      }
      r
  }

  /** The error that stops the loop at row `i` or later, if any. */
  function ScanFrom(docs: seq<seq<TopicPair>>, i: nat): Option<ScatterError>
    decreases ScatterRows - i
  {
    if i >= ScatterRows then None
    else if i >= |docs| then Some(MissingDocument(i))
    else match FirstUnknownTopic(docs[i])
      case Some(t) => Some(UnknownTopic(i, t))
      case None => ScanFrom(docs, i + 1)
  }

  /** Row `i` once the loop has run: the document's dense row if the loop reaches it, else zeros. */
  function FinalRow(docs: seq<seq<TopicPair>>, i: nat): TopicVector
    requires i < |docs|
  {
    if i < ScatterRows then DenseRow(docs[i]) else ZeroRow()
  }

  /** The frame of lines 52 to 62, or the error that stops them. */
  function Scattered(docs: seq<seq<TopicPair>>): Result<seq<TopicVector>, ScatterError>
  {
    match ScanFrom(docs, 0)
    case Some(e) => Err(e)
    case None =>
      Ok(seq(|docs|, i requires 0 <= i < |docs| => FinalRow(docs, i)))
  }

  /**
   * Entry `(i, t)` of the frame is the weight of the last pair for `t` in
   * document `i`'s list, 0 if there is none, and 0 in every row the loop does
   * not reach.
   */
  lemma ScatteredEntry(docs: seq<seq<TopicPair>>, i: nat, t: nat)
    requires Scattered(docs).Ok? && i < |docs| && t < TopicColumns
    ensures |Scattered(docs).value| == |docs|
    ensures Scattered(docs).value[i][t] == if i < ScatterRows then LastWeight(docs[i], t) else 0.0
  {
  }

  lemma {:induction false} ScanFromNone(docs: seq<seq<TopicPair>>, i: nat)
    requires i <= ScatterRows
    ensures ScanFrom(docs, i).None? <==>
      (i == ScatterRows || |docs| >= ScatterRows)
      && forall r, m :: i <= r < ScatterRows && r < |docs| && 0 <= m < |docs[r]| ==> InRange(docs[r][m].topic)
    decreases ScatterRows - i
  {
    if i < ScatterRows && i < |docs| && FirstUnknownTopic(docs[i]).None? {
      ScanFromNone(docs, i + 1);
      assert forall m :: 0 <= m < |docs[i]| ==> InRange(docs[i][m].topic);
    }
  }

  /**
   * The scatter goes through exactly when there are at least 693 documents
   * and every pair in the first 693 names one of the ten columns.
   */
  lemma ScatterSucceeds(docs: seq<seq<TopicPair>>)
    ensures Scattered(docs).Ok? <==>
      |docs| >= ScatterRows && forall r, m :: 0 <= r < ScatterRows && 0 <= m < |docs[r]| ==> InRange(docs[r][m].topic)
  {
    ScanFromNone(docs, 0);
  }

  /** The frame as rows of values. */
  function Matrix(a: array2<real>): seq<seq<real>>
    reads a
  {
    seq(a.Length0, i requires 0 <= i < a.Length0 reads a =>
      seq(a.Length1, c requires 0 <= c < a.Length1 reads a => a[i, c]))
  }

  /** Lines 52 to 58: one row per document, the ten topic columns, every entry 0. */
  method NewTopicFrame(n: nat) returns (a: array2<real>)
    ensures fresh(a) && a.Length0 == n && a.Length1 == TopicColumns
    ensures forall i, c :: 0 <= i < n && 0 <= c < TopicColumns ==> a[i, c] == 0.0
  {
    a := new real[n, TopicColumns]((i, c) => 0.0);
  }

  /** Appending a pair changes the last weight of its own topic only. */
  lemma LastWeightSnoc(pairs: seq<TopicPair>, j: nat, c: int)
    requires j < |pairs|
    ensures LastWeight(pairs[..j + 1], c) == if pairs[j].topic == c then pairs[j].weight else LastWeight(pairs[..j], c)
  {
    assert pairs[..j + 1][..j] == pairs[..j];
  }

  /** The inner loop of line 61 for row `i`: writes the pairs of one document, stopping at an unknown topic. */
  method ScatterRow(a: array2<real>, i: nat, pairs: seq<TopicPair>) returns (unknown: Option<int>)
    requires i < a.Length0 && a.Length1 == TopicColumns
    requires forall c :: 0 <= c < TopicColumns ==> a[i, c] == 0.0
    modifies a
    ensures unknown == FirstUnknownTopic(pairs)
    ensures forall r, c :: 0 <= r < a.Length0 && r != i && 0 <= c < TopicColumns ==> a[r, c] == old(a[r, c])
    ensures unknown.None? ==> forall c :: 0 <= c < TopicColumns ==> a[i, c] == LastWeight(pairs, c)
  {
    for j := 0 to |pairs|
      invariant forall m :: 0 <= m < j ==> InRange(pairs[m].topic)
      invariant forall r, c :: 0 <= r < a.Length0 && r != i && 0 <= c < TopicColumns ==> a[r, c] == old(a[r, c])
      invariant forall c :: 0 <= c < TopicColumns ==> a[i, c] == LastWeight(pairs[..j], c)
    {
      var t := pairs[j].topic;
      var column := ColumnOf(t);
      if column.None? {
        return Some(t);
      }
      a[i, column.value] := pairs[j].weight;
      forall c | 0 <= c < TopicColumns ensures a[i, c] == LastWeight(pairs[..j + 1], c) {
        LastWeightSnoc(pairs, j, c);
      }
    }
    assert pairs[..|pairs|] == pairs;
    return None;
  }

  /**
   * topics_over_time.py:60-62, in place: for each of the first 693 documents,
   * write each (topic, weight) pair into that topic's column of the
   * document's row, a later pair for a topic overwriting an earlier one.
   */
  method Scatter(a: array2<real>, docs: seq<seq<TopicPair>>) returns (outcome: Outcome<ScatterError>)
    requires a.Length0 == |docs| && a.Length1 == TopicColumns
    requires forall i, c :: 0 <= i < a.Length0 && 0 <= c < a.Length1 ==> a[i, c] == 0.0
    modifies a
    ensures outcome == match Scattered(docs) case Ok(_) => Pass case Err(e) => Fail(e)
    ensures outcome.Pass? ==> Matrix(a) == Scattered(docs).value
  {
    for i := 0 to ScatterRows
      invariant ScanFrom(docs, 0) == ScanFrom(docs, i)
      invariant forall r, c :: 0 <= r < i && r < a.Length0 && 0 <= c < TopicColumns ==> a[r, c] == LastWeight(docs[r], c)
      invariant forall r, c :: i <= r < a.Length0 && 0 <= c < TopicColumns ==> a[r, c] == 0.0
    {
      if i >= |docs| {
        return Fail(MissingDocument(i));
      }
      var unknown := ScatterRow(a, i, docs[i]);
      if unknown.Some? {
        return Fail(UnknownTopic(i, unknown.value));
      }
    }
    var rows := Scattered(docs).value;
    forall r | 0 <= r < |docs| ensures Matrix(a)[r] == rows[r] {
      if r < ScatterRows {
        assert rows[r] == DenseRow(docs[r]);
      } else {
        assert rows[r] == ZeroRow();
      }
    }
    return Pass;
  }
}
