/**
 * The token table behind the descriptive statistics (descriptive_analysis.py):
 * tokenize and explode, drop stopwords, lemmatize, then drop stopwords and
 * punctuation again. Unlike topic_model.py, stopwords go once BEFORE the
 * lemmatizer, and the stoplist has only the English NLTK list.
 */
module DescriptiveAnalysis {
  import opened Wrappers
  import opened Records
  import opened Text
  import opened TokenFilter
  import TopicModel

  /** The stoplist: the configured words, then NLTK's English list. */
  function Stoplist(configured: seq<string>, english: seq<string>): (s: seq<string>)
    ensures forall w :: w in s <==> w in configured || w in english
    ensures |s| == |configured| + |english|
  {
    configured + english
  }

  /** Lines 43 to 75; the closing column selection and index reset change no value. */
  function Describe(speeches: seq<Speech>, tokenize: string -> seq<string>, lemmatize: string -> string,
                    stopwords: seq<string>, punctuation: seq<string>): Result<seq<Row>, CleaningError>
  {
    var kept := FilterOut(Explode(speeches, tokenize), stopwords);
    match LemmatizeColumn(kept, lemmatize)
    case Err(e) => Err(e)
    case Ok(rows) => Ok(FilterOut(FilterOut(rows, stopwords), punctuation))
  }

  /** No final token is a stopword or a punctuation symbol. */
  lemma DescribeFiltered(speeches: seq<Speech>, tokenize: string -> seq<string>, lemmatize: string -> string,
                         stopwords: seq<string>, punctuation: seq<string>)
    ensures var r := Describe(speeches, tokenize, lemmatize, stopwords, punctuation);
      r.Ok? ==> AllText(r.value) && forall k :: 0 <= k < |r.value| ==>
        r.value[k].token.value !in stopwords && r.value[k].token.value !in punctuation
  {
    var kept := FilterOut(Explode(speeches, tokenize), stopwords);
    var lemmatized := LemmatizeColumn(kept, lemmatize);
    if lemmatized.Ok? {
      var rows := lemmatized.value;
      FilterOutMembers(rows, stopwords);
      FilterOutMembers(FilterOut(rows, stopwords), punctuation);
      var out := FilterOut(FilterOut(rows, stopwords), punctuation);
      forall k | 0 <= k < |out| ensures out[k].token.Some? && out[k].token.value !in stopwords && out[k].token.value !in punctuation {
        assert out[k] in out;
        assert out[k] in rows;
        var m :| 0 <= m < |rows| && rows[m] == out[k];
      }
    }
  }

  /** The first filter never removes the NaN of an empty speech, so the lemmatizer still meets it. */
  lemma DescribeFailsOnEmptySpeech(speeches: seq<Speech>, tokenize: string -> seq<string>, lemmatize: string -> string,
                                   stopwords: seq<string>, punctuation: seq<string>, k: nat)
    requires k < |speeches| && tokenize(speeches[k].text) == []
    ensures Describe(speeches, tokenize, lemmatize, stopwords, punctuation).Err?
  {
    var exploded := Explode(speeches, tokenize);
    ExplodeSpec(speeches, tokenize);
    var m :| 0 <= m < |exploded| && exploded[m].token.None?;
    assert exploded[m] in exploded;
    FilterOutMembers(exploded, stopwords);
    var kept := FilterOut(exploded, stopwords);
    assert exploded[m] in kept;
    var n :| 0 <= n < |kept| && kept[n] == exploded[m];
  }

  /**
   * When every speech has a token and every lemma is a single word, the result
   * keeps exactly the tokens that are not stopwords and whose lemma is neither a
   * stopword nor a punctuation symbol, lemmatized, in their original order.
   */
  lemma DescribeOnWords(speeches: seq<Speech>, tokenize: string -> seq<string>, lemmatize: string -> string,
                        stopwords: seq<string>, punctuation: seq<string>)
    requires forall k :: 0 <= k < |speeches| ==> tokenize(speeches[k].text) != []
    requires LemmasAreWords(FilterOut(Explode(speeches, tokenize), stopwords), lemmatize)
    ensures AllText(FilterOut(Explode(speeches, tokenize), stopwords))
    ensures Describe(speeches, tokenize, lemmatize, stopwords, punctuation)
         == Ok(FilterOut(MapLemmas(FilterOut(Explode(speeches, tokenize), stopwords), lemmatize), stopwords + punctuation))
  {
    var exploded := Explode(speeches, tokenize);
    ExplodeSpec(speeches, tokenize);
    FilterOutMembers(exploded, stopwords);
    var kept := FilterOut(exploded, stopwords);
    forall k | 0 <= k < |kept| ensures kept[k].token.Some? {
      assert kept[k] in kept;
      var m :| 0 <= m < |exploded| && exploded[m] == kept[k];
    }
    LemmatizeAligned(kept, lemmatize);
    FilterOutTwice(MapLemmas(kept, lemmatize), stopwords, punctuation);
  }

  /**
   * The order of the steps matters: a stopword whose lemma is not a stopword
   * is dropped here but survives, as its lemma, in topic_model.py.
   */
  lemma StopwordBeforeLemma(d: DocKey, text: string, tokenize: string -> seq<string>, lemmatize: string -> string)
    requires tokenize(text) == ["us"] && lemmatize("us") == "u"
    ensures Describe([Speech(d, text)], tokenize, lemmatize, ["us"], ["."]) == Ok([])
    ensures TopicModel.CleanTokens([Speech(d, text)], tokenize, lemmatize, ["us"], ["."]) == Ok([Row(d, Some("u"))])
  {
    var speeches := [Speech(d, text)];
    var exploded := Explode(speeches, tokenize);
    assert exploded == [Row(d, Some("us"))] by {
      assert ExplodeOne(speeches[0], ["us"]) == [Row(d, Some("us"))];
      assert Explode(speeches[1..], tokenize) == [];
    }
    assert FilterOut(exploded, ["us"]) == [];
    assert Split("") == [];
    assert LemmatizeColumn([], lemmatize) == Ok([]);
    assert IsWord("u");
    LemmatizeAligned(exploded, lemmatize);
    assert MapLemmas(exploded, lemmatize) == [Row(d, Some("u"))];
    assert FilterOut([Row(d, Some("u"))], ["us"]) == [Row(d, Some("u"))];
    assert FilterOut([Row(d, Some("u"))], ["."]) == [Row(d, Some("u"))];
  }
}
