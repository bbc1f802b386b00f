/**
 * The token table shared by the cleaning scripts: one row per token, with the
 * key columns of its speech. `Explode` tokenizes every speech and gives each
 * token a row of its own (topic_model.py:58-61); `FilterOut` keeps the rows
 * whose token is not in a list (topic_model.py:73-79); `LemmatizeColumn`
 * lemmatizes every token, joins the lemmas with spaces, splits that text
 * again and assigns the pieces back to the column (topic_model.py:68).
 * The tokenizer and the lemmatizer are NLTK calls and are parameters here.
 */
module TokenFilter {
  import opened Wrappers
  import opened Records
  import opened Text

  /** A row of the cleaned speeches table: its key columns and the speech text. */
  datatype Speech = Speech(doc: DocKey, text: string)

  /** A row of the exploded table. `None` is the NaN that `explode` puts in for a speech with no tokens. */
  datatype Row = Row(doc: DocKey, token: Option<string>)

  datatype CleaningError =
    | NonStringToken(position: nat)           // the lemmatizer is handed the NaN of an empty speech
    | LengthMismatch(rows: nat, values: nat)  // a column is assigned a list of another length

  predicate AllText(rows: seq<Row>)
  {
    forall k :: 0 <= k < |rows| ==> rows[k].token.Some?
  }

  /** The token column, when every entry is a string. */
  function Tokens(rows: seq<Row>): (ts: seq<string>)
    requires AllText(rows)
    ensures |ts| == |rows|
  {
    seq(|rows|, k requires 0 <= k < |rows| && AllText(rows) => rows[k].token.value)
  }

  function Concat(tss: seq<seq<string>>): seq<string>
  {
    if tss == [] then [] else tss[0] + Concat(tss[1..])
  }

  /** The rows `explode` makes of one speech whose token list is `tokens`. */
  function ExplodeOne(s: Speech, tokens: seq<string>): seq<Row>
  {
    if tokens == [] then [Row(s.doc, None)]
    else seq(|tokens|, k requires 0 <= k < |tokens| => Row(s.doc, Some(tokens[k])))
  }

  /** Tokenize every speech, then one row per token, speeches in table order. */
  function Explode(speeches: seq<Speech>, tokenize: string -> seq<string>): seq<Row>
  {
    if speeches == [] then []
    else ExplodeOne(speeches[0], tokenize(speeches[0].text)) + Explode(speeches[1..], tokenize)
  }

  /**
   * The exploded table holds no NaN exactly when every speech has a token, and
   * then its token column is all the token lists concatenated in order.
   */
  lemma {:induction false} ExplodeSpec(speeches: seq<Speech>, tokenize: string -> seq<string>)
    ensures AllText(Explode(speeches, tokenize))
        <==> forall k :: 0 <= k < |speeches| ==> tokenize(speeches[k].text) != []
    ensures AllText(Explode(speeches, tokenize)) ==>
      Tokens(Explode(speeches, tokenize))
        == Concat(seq(|speeches|, k requires 0 <= k < |speeches| => tokenize(speeches[k].text)))
  {
    if speeches != [] {
      var s := speeches[0];
      var head := ExplodeOne(s, tokenize(s.text));
      var tail := Explode(speeches[1..], tokenize);
      ExplodeSpec(speeches[1..], tokenize);
      var lists := seq(|speeches|, k requires 0 <= k < |speeches| => tokenize(speeches[k].text));
      var restLists := seq(|speeches[1..]|, k requires 0 <= k < |speeches[1..]| => tokenize(speeches[1..][k].text));
      assert lists[1..] == restLists;
      AllTextAppend(head, tail);
      ExplodeOneTokens(s, tokenize(s.text));
      assert (forall k :: 0 <= k < |speeches| ==> tokenize(speeches[k].text) != [])
          <==> tokenize(s.text) != [] && forall k :: 0 <= k < |speeches[1..]| ==> tokenize(speeches[1..][k].text) != [] by {
        forall k | 0 <= k < |speeches[1..]| ensures speeches[1..][k] == speeches[k + 1] {
        }
      }
      if AllText(head + tail) {
        TokensAppend(head, tail);
      }
    }
  }

  /** One speech's rows hold text exactly when it has tokens, and then they are its tokens. */
  lemma ExplodeOneTokens(s: Speech, tokens: seq<string>)
    ensures AllText(ExplodeOne(s, tokens)) <==> tokens != []
    ensures AllText(ExplodeOne(s, tokens)) ==> Tokens(ExplodeOne(s, tokens)) == tokens
  {
    if tokens == [] {
      assert ExplodeOne(s, tokens)[0].token.None?;
    }
  }

  lemma AllTextAppend(a: seq<Row>, b: seq<Row>)
    ensures AllText(a + b) <==> AllText(a) && AllText(b)
  {
    assert forall k :: 0 <= k < |a| ==> (a + b)[k] == a[k];
    assert forall k :: 0 <= k < |b| ==> (a + b)[|a| + k] == b[k];
  }

  lemma TokensAppend(a: seq<Row>, b: seq<Row>)
    requires AllText(a + b)
    ensures AllText(a) && AllText(b) && Tokens(a + b) == Tokens(a) + Tokens(b)
  {
    AllTextAppend(a, b);
  }

  /** The token is one of `values` (a NaN never is). */
  predicate Listed(token: Option<string>, values: seq<string>)
  {
    token.Some? && token.value in values
  }

  /** pyjanitor's complement filter on the token column: drop the rows whose token is listed. */
  function FilterOut(rows: seq<Row>, values: seq<string>): seq<Row>
  {
    if rows == [] then []
    else (if Listed(rows[0].token, values) then [] else [rows[0]]) + FilterOut(rows[1..], values)
  }

  /** A row survives exactly when it was there and its token is not listed. */
  lemma {:induction false} FilterOutMembers(rows: seq<Row>, values: seq<string>)
    ensures forall r :: r in FilterOut(rows, values) <==> r in rows && !Listed(r.token, values)
  {
    if rows != [] {
      FilterOutMembers(rows[1..], values);
      assert forall r :: r in rows <==> r == rows[0] || r in rows[1..] by {
        assert rows == [rows[0]] + rows[1..];
      }
    }
  }

  /** Filtering works row by row: it distributes over concatenation. */
  lemma {:induction false} FilterOutAppend(a: seq<Row>, b: seq<Row>, values: seq<string>)
    ensures FilterOut(a + b, values) == FilterOut(a, values) + FilterOut(b, values)
  {
    if a != [] {
      assert (a + b)[0] == a[0] && (a + b)[1..] == a[1..] + b;
      FilterOutAppend(a[1..], b, values);
    } else {
      assert a + b == b;
    }
  }

  /** `a` is `b` with some elements removed, the rest in their original order. */
  predicate IsSubsequence<T(==)>(a: seq<T>, b: seq<T>)
    decreases |b|
  {
    if a == [] then true
    else if b == [] then false
    else if a[0] == b[0] then IsSubsequence(a[1..], b[1..])
    else IsSubsequence(a, b[1..])
  }

  /** Filtering only removes rows: the survivors keep their relative order, and there are no more of them. */
  lemma {:induction false} FilterOutSubsequence(rows: seq<Row>, values: seq<string>)
    ensures IsSubsequence(FilterOut(rows, values), rows)
    ensures |FilterOut(rows, values)| <= |rows|
  {
    if rows != [] {
      FilterOutSubsequence(rows[1..], values);
      var rest := FilterOut(rows[1..], values);
      if Listed(rows[0].token, values) {
        assert FilterOut(rows, values) == rest;
        if rest != [] {
          FilterOutMembers(rows[1..], values);
          assert rest[0] in rest;
          assert rest[0] != rows[0];
        }
      } else {
        assert FilterOut(rows, values) == [rows[0]] + rest;
        assert ([rows[0]] + rest)[1..] == rest;
      }
    }
  }

  /** Filtering against the same values a second time changes nothing. */
  lemma {:induction false} FilterOutIdempotent(rows: seq<Row>, values: seq<string>)
    ensures FilterOut(FilterOut(rows, values), values) == FilterOut(rows, values)
  {
    FilterOutTwice(rows, values, values);
    assert forall w :: w in values + values <==> w in values;
    FilterOutSameListed(rows, values + values, values);
  }

  /** Two filters in a row remove exactly the tokens in either list. */
  lemma {:induction false} FilterOutTwice(rows: seq<Row>, a: seq<string>, b: seq<string>)
    ensures FilterOut(FilterOut(rows, a), b) == FilterOut(rows, a + b)
  {
    if rows != [] {
      FilterOutTwice(rows[1..], a, b);
      var head := if Listed(rows[0].token, a) then [] else [rows[0]];
      FilterOutAppend(head, FilterOut(rows[1..], a), b);
      if !Listed(rows[0].token, a) {
        assert FilterOut(head, b) == (if Listed(rows[0].token, b) then [] else [rows[0]]) + FilterOut([], b) by {
          assert head[1..] == [];
        }
      }
    }
  }

  /** Only membership in the value list matters to the filter. */
  lemma {:induction false} FilterOutSameListed(rows: seq<Row>, a: seq<string>, b: seq<string>)
    requires forall w :: w in a <==> w in b
    ensures FilterOut(rows, a) == FilterOut(rows, b)
  {
    if rows != [] {
      FilterOutSameListed(rows[1..], a, b);
    }
  }

  /** The first row whose token is NaN. */
  function FirstMissing(rows: seq<Row>): (p: Option<nat>)
    ensures p.None? <==> AllText(rows)
    ensures p.Some? ==> p.value < |rows| && rows[p.value].token.None?
    ensures p.Some? ==> forall k :: 0 <= k < p.value ==> rows[k].token.Some?
  {
    if rows == [] then None
    else if rows[0].token.None? then Some(0)
    else match FirstMissing(rows[1..])
      case None => None
      case Some(p) => Some(p + 1)
  }

  /** The lemma of every token of a column of strings, in row order. */
  function Lemmas(rows: seq<Row>, lemmatize: string -> string): (ls: seq<string>)
    requires AllText(rows)
    ensures |ls| == |rows|
  {
    seq(|rows|, k requires 0 <= k < |rows| && AllText(rows) => lemmatize(rows[k].token.value))
  }

  /** Every row with its token replaced by the token's lemma. */
  function MapLemmas(rows: seq<Row>, lemmatize: string -> string): (out: seq<Row>)
    requires AllText(rows)
    ensures |out| == |rows|
  {
    seq(|rows|, k requires 0 <= k < |rows| && AllText(rows) => Row(rows[k].doc, Some(lemmatize(rows[k].token.value))))
  }

  /**
   * Lemmatize by joining all lemmas with spaces, splitting the text again and
   * assigning the pieces back to the column by position.
   */
  function LemmatizeColumn(rows: seq<Row>, lemmatize: string -> string): (r: Result<seq<Row>, CleaningError>)
    ensures r.Err? && r.error.NonStringToken? <==> !AllText(rows)
    ensures r.Err? && r.error.NonStringToken? ==>
      r.error.position < |rows| && rows[r.error.position].token.None?
    ensures r.Ok? ==> |r.value| == |rows| && AllText(r.value)
    ensures r.Ok? ==> forall k :: 0 <= k < |rows| ==> r.value[k].doc == rows[k].doc
    ensures r.Ok? ==> forall k :: 0 <= k < |r.value| ==> IsWord(r.value[k].token.value)
  {
    match FirstMissing(rows)
    case Some(p) => Err(NonStringToken(p))
    case None =>
      var words := Split(Join(" ", Lemmas(rows, lemmatize)));
      SplitGivesWords(Join(" ", Lemmas(rows, lemmatize)));
      assert forall k :: 0 <= k < |words| ==> IsWord(words[k]) by {
        forall k | 0 <= k < |words| ensures IsWord(words[k]) {
          assert words[k] in words;
        }
      }
      if |words| != |rows| then Err(LengthMismatch(|rows|, |words|))
      else Ok(seq(|rows|, k requires 0 <= k < |rows| => Row(rows[k].doc, Some(words[k]))))
  }

  /** No lemma is empty or holds whitespace, so splitting the joined text puts each lemma back on its row. */
  predicate LemmasAreWords(rows: seq<Row>, lemmatize: string -> string)
  {
    forall k :: 0 <= k < |rows| && rows[k].token.Some? ==> IsWord(lemmatize(rows[k].token.value))
  }

  /**
   * When no lemma is empty or holds whitespace, join-then-split keeps the row
   * count and each row simply receives its own token's lemma.
   */
  lemma LemmatizeAligned(rows: seq<Row>, lemmatize: string -> string)
    requires AllText(rows) && LemmasAreWords(rows, lemmatize)
    ensures LemmatizeColumn(rows, lemmatize) == Ok(MapLemmas(rows, lemmatize))
  {
    var ls := Lemmas(rows, lemmatize);
    assert forall w :: w in ls ==> IsWord(w);
    SplitJoin(ls);
    var words := Split(Join(" ", ls));
    assert words == ls;
    assert seq(|rows|, k requires 0 <= k < |rows| => Row(rows[k].doc, Some(words[k]))) == MapLemmas(rows, lemmatize);
  }

  /**
   * Without that condition the assignment can still succeed with every lemma
   * on the wrong row: a lemma holding a space and an empty one cancel out.
   */
  lemma LemmatizeCanShiftTokens(d: DocKey, lemmatize: string -> string)
    requires lemmatize("a") == "x y" && lemmatize("b") == ""
    ensures LemmatizeColumn([Row(d, Some("a")), Row(d, Some("b"))], lemmatize)
         == Ok([Row(d, Some("x")), Row(d, Some("y"))])
  {
    var rows := [Row(d, Some("a")), Row(d, Some("b"))];
    assert Lemmas(rows, lemmatize) == ["x y", ""];
    assert Join(" ", ["x y", ""]) == "x y ";
    assert Split(" ") == [] by {
      assert IsSpace(" "[0]) && " "[1..] == [];
    }
    assert Split("y ") == ["y"] by {
      assert !IsSpace("y "[0]) && IsSpace("y "[1]);
      assert WordEnd("y ", 0) == 1;
      assert "y "[..1] == "y" && "y "[1..] == " ";
    }
    assert Split(" y ") == ["y"] by {
      assert IsSpace(" y "[0]) && " y "[1..] == "y ";
    }
    assert Split("x y ") == ["x", "y"] by {
      assert !IsSpace("x y "[0]) && IsSpace("x y "[1]);
      assert WordEnd("x y ", 0) == 1;
      assert "x y "[..1] == "x" && "x y "[1..] == " y ";
    }
    var words := ["x", "y"];
    assert seq(|rows|, k requires 0 <= k < |rows| => Row(rows[k].doc, Some(words[k])))
        == [Row(d, Some("x")), Row(d, Some("y"))];
  }
}
