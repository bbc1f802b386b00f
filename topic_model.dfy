/**
 * Preparing the documents of the topic model (topic_model.py): tokenize,
 * lemmatize, drop stopwords and punctuation, regroup the tokens into one text
 * per speech, tokenize again, tag each document with its id, append the
 * bigrams that the phrase model finds, and turn each document into a bag of
 * words. The NLTK tokenizer and lemmatizer, gensim's phrase model and
 * `doc2bow` are parameters.
 */
module TopicModel {
  import opened Wrappers
  import opened Ordering
  import opened Records
  import opened Text
  import opened TokenFilter

  /** The stoplist: the configured words, then NLTK's English, Spanish and French lists. */
  function Stoplist(configured: seq<string>, english: seq<string>, spanish: seq<string>, french: seq<string>): (s: seq<string>)
    ensures forall w :: w in s <==> w in configured || w in english || w in spanish || w in french
    ensures |s| == |configured| + |english| + |spanish| + |french|
  {
    configured + english + spanish + french
  }

  /** Tokenize and explode the speeches, lemmatize the token column, then drop stopwords and punctuation. */
  function CleanTokens(speeches: seq<Speech>, tokenize: string -> seq<string>, lemmatize: string -> string,
                       stopwords: seq<string>, punctuation: seq<string>): Result<seq<Row>, CleaningError>
  {
    match LemmatizeColumn(Explode(speeches, tokenize), lemmatize)
    case Err(e) => Err(e)
    case Ok(rows) => Ok(FilterOut(FilterOut(rows, stopwords), punctuation))
  }

  /** Whatever the tokenizer and lemmatizer do, no surviving token is a stopword or a punctuation symbol. */
  lemma CleanTokensFiltered(speeches: seq<Speech>, tokenize: string -> seq<string>, lemmatize: string -> string,
                            stopwords: seq<string>, punctuation: seq<string>)
    ensures var r := CleanTokens(speeches, tokenize, lemmatize, stopwords, punctuation);
      r.Ok? ==> AllText(r.value) && forall k :: 0 <= k < |r.value| ==>
        r.value[k].token.value !in stopwords && r.value[k].token.value !in punctuation
  {
    var exploded := Explode(speeches, tokenize);
    var lemmatized := LemmatizeColumn(exploded, lemmatize);
    if lemmatized.Ok? {
      var rows := lemmatized.value;
      FilterOutMembers(rows, stopwords);
      FilterOutMembers(FilterOut(rows, stopwords), punctuation);
      var out := FilterOut(FilterOut(rows, stopwords), punctuation);
      forall k | 0 <= k < |out| ensures out[k].token.Some? && out[k].token.value !in stopwords && out[k].token.value !in punctuation {
        assert out[k] in out;
        assert out[k] in rows;
        var m :| 0 <= m < |rows| && rows[m] == out[k];
      }
    }
  }

  /** Every surviving token is a piece of the lemmatizer's split, so a single word. */
  lemma CleanTokensAreWords(speeches: seq<Speech>, tokenize: string -> seq<string>, lemmatize: string -> string,
                            stopwords: seq<string>, punctuation: seq<string>)
    ensures var r := CleanTokens(speeches, tokenize, lemmatize, stopwords, punctuation);
      r.Ok? ==> AllText(r.value) && forall k :: 0 <= k < |r.value| ==> IsWord(r.value[k].token.value)
  {
    var lemmatized := LemmatizeColumn(Explode(speeches, tokenize), lemmatize);
    if lemmatized.Ok? {
      var rows := lemmatized.value;
      FilterOutMembers(rows, stopwords);
      FilterOutMembers(FilterOut(rows, stopwords), punctuation);
      var out := FilterOut(FilterOut(rows, stopwords), punctuation);
      forall k | 0 <= k < |out| ensures out[k].token.Some? && IsWord(out[k].token.value) {
        assert out[k] in out;
        assert out[k] in rows;
        var m :| 0 <= m < |rows| && rows[m] == out[k];
      }
    }
  }

  /** A speech that tokenizes to nothing stops the run: its NaN row reaches the lemmatizer. */
  lemma CleanTokensFailsOnEmptySpeech(speeches: seq<Speech>, tokenize: string -> seq<string>, lemmatize: string -> string,
                                      stopwords: seq<string>, punctuation: seq<string>, k: nat)
    requires k < |speeches| && tokenize(speeches[k].text) == []
    ensures CleanTokens(speeches, tokenize, lemmatize, stopwords, punctuation).Err?
  {
    ExplodeSpec(speeches, tokenize);
  }

  /**
   * When every speech has a token and every lemma is a single word, the
   * cleaned rows are the exploded rows, lemmatized, without the ones whose
   * LEMMA is a stopword or a punctuation symbol.
   */
  lemma CleanTokensOnWords(speeches: seq<Speech>, tokenize: string -> seq<string>, lemmatize: string -> string,
                           stopwords: seq<string>, punctuation: seq<string>)
    requires forall k :: 0 <= k < |speeches| ==> tokenize(speeches[k].text) != []
    requires LemmasAreWords(Explode(speeches, tokenize), lemmatize)
    ensures AllText(Explode(speeches, tokenize))
    ensures CleanTokens(speeches, tokenize, lemmatize, stopwords, punctuation)
         == Ok(FilterOut(MapLemmas(Explode(speeches, tokenize), lemmatize), stopwords + punctuation))
  {
    ExplodeSpec(speeches, tokenize);
    LemmatizeAligned(Explode(speeches, tokenize), lemmatize);
    FilterOutTwice(MapLemmas(Explode(speeches, tokenize), lemmatize), stopwords, punctuation);
  }

  /** One document of the regrouped table: its key columns and its surviving tokens joined by spaces. */
  datatype Grouped = Grouped(doc: DocKey, speech: string)

  function Docs(rows: seq<Row>): (ds: seq<DocKey>)
    ensures |ds| == |rows| && forall k :: 0 <= k < |rows| ==> ds[k] == rows[k].doc
  {
    seq(|rows|, k requires 0 <= k < |rows| => rows[k].doc)
  }

  /** The tokens of the rows with key `key`, in row order. */
  function TokensOf(rows: seq<Row>, key: DocKey): seq<string>
    requires AllText(rows)
  {
    if rows == [] then []
    else (if rows[0].doc == key then [rows[0].token.value] else []) + TokensOf(rows[1..], key)
  }

  /** topic_model.py:82: the tokens grouped by the five key columns and joined with spaces, groups in ascending key order. */
  function Regroup(rows: seq<Row>): seq<Grouped>
    requires AllText(rows)
  {
    var keys := SortedKeys(Docs(rows), KeyLess);
    seq(|keys|, k requires 0 <= k < |keys| => Grouped(keys[k], Join(" ", TokensOf(rows, keys[k]))))
  }

  /**
   * The regrouped table has one document per distinct key, in ascending key
   * order; a speech none of whose tokens survived the filters is gone.
   */
  lemma RegroupKeys(rows: seq<Row>)
    requires AllText(rows)
    ensures var keys := seq(|Regroup(rows)|, k requires 0 <= k < |Regroup(rows)| => Regroup(rows)[k].doc);
      StrictlySorted(keys, KeyLess) && forall key :: key in keys <==> key in Docs(rows)
  {
    KeyLessIsStrictTotalOrder();
    SortedKeysSpec(Docs(rows), KeyLess);
    assert seq(|Regroup(rows)|, k requires 0 <= k < |Regroup(rows)| => Regroup(rows)[k].doc) == SortedKeys(Docs(rows), KeyLess);
  }

  /** A key that occurs in the rows has at least one token. */
  lemma {:induction false} TokensOfPresent(rows: seq<Row>, key: DocKey)
    requires AllText(rows)
    requires key in Docs(rows)
    ensures TokensOf(rows, key) != []
  {
    if rows[0].doc != key {
      assert AllText(rows[1..]);
      assert key in Docs(rows[1..]) by {
        var m :| 0 <= m < |rows| && rows[m].doc == key;
        assert m > 0;
        assert rows[1..][m - 1].doc == key;
      }
      TokensOfPresent(rows[1..], key);
    }
  }

  /** Every token in `TokensOf` is the token of some row of that key. */
  lemma {:induction false} TokensOfFromRows(rows: seq<Row>, key: DocKey)
    requires AllText(rows)
    ensures forall t :: t in TokensOf(rows, key) ==>
      exists m :: 0 <= m < |rows| && rows[m].doc == key && rows[m].token == Some(t)
  {
    if rows != [] {
      TokensOfFromRows(rows[1..], key);
      forall t | t in TokensOf(rows[1..], key)
        ensures exists m :: 0 <= m < |rows| && rows[m].doc == key && rows[m].token == Some(t)
      {
        var m :| 0 <= m < |rows[1..]| && rows[1..][m].doc == key && rows[1..][m].token == Some(t);
        assert rows[m + 1].doc == key && rows[m + 1].token == Some(t);
      }
    }
  }

  /**
   * Splitting a regrouped document gives back its tokens in their row order,
   * when each token is a single word (as the tokenizer produces them).
   */
  lemma RegroupText(rows: seq<Row>, k: nat)
    requires AllText(rows)
    requires forall m :: 0 <= m < |rows| ==> IsWord(rows[m].token.value)
    requires k < |Regroup(rows)|
    ensures Split(Regroup(rows)[k].speech) == TokensOf(rows, Regroup(rows)[k].doc) != []
  {
    var key := Regroup(rows)[k].doc;
    TokensOfFromRows(rows, key);
    RegroupKeys(rows);
    assert key == seq(|Regroup(rows)|, k requires 0 <= k < |Regroup(rows)| => Regroup(rows)[k].doc)[k];
    TokensOfPresent(rows, key);
    SplitJoin(TokensOf(rows, key));
  }

  /** The documents topic_model.py hands to tagging: cleaned tokens regrouped into texts. */
  function Documents(speeches: seq<Speech>, tokenize: string -> seq<string>, lemmatize: string -> string,
                     stopwords: seq<string>, punctuation: seq<string>): (r: Result<seq<Grouped>, CleaningError>)
  {
    CleanTokensFiltered(speeches, tokenize, lemmatize, stopwords, punctuation);
    match CleanTokens(speeches, tokenize, lemmatize, stopwords, punctuation)
    case Err(e) => Err(e)
    case Ok(rows) => Ok(Regroup(rows))
  }

  /**
   * Every document handed to tagging is non-empty and splits back into the
   * cleaned tokens of its speech, in row order.
   */
  lemma DocumentsSplitBack(speeches: seq<Speech>, tokenize: string -> seq<string>, lemmatize: string -> string,
                           stopwords: seq<string>, punctuation: seq<string>, k: nat)
    requires Documents(speeches, tokenize, lemmatize, stopwords, punctuation).Ok?
    requires k < |Documents(speeches, tokenize, lemmatize, stopwords, punctuation).value|
    ensures var rows := CleanTokens(speeches, tokenize, lemmatize, stopwords, punctuation).value;
      var d := Documents(speeches, tokenize, lemmatize, stopwords, punctuation).value[k];
      AllText(rows) && Split(d.speech) == TokensOf(rows, d.doc) != []
  {
    CleanTokensAreWords(speeches, tokenize, lemmatize, stopwords, punctuation);
    RegroupText(CleanTokens(speeches, tokenize, lemmatize, stopwords, punctuation).value, k);
  }

  /** A Python list of tokens, which the bigram loop extends in place. */
  class TokenList {
    var items: seq<string>

    constructor (items: seq<string>)
      ensures this.items == items
    {
      this.items := items;
    }

    /** `list.append`. */
    method Append(token: string)
      modifies this
      ensures items == old(items) + [token]
    {
      items := items + [token];
    }
  }

  /** No list object occurs twice. */
  predicate Distinct(lists: seq<TokenList>)
  {
    forall i, j :: 0 <= i < j < |lists| ==> lists[i] != lists[j]
  }

  /** topic_model.py:87: every document text is tokenized into a new list. */
  method Retokenize(groups: seq<Grouped>, tokenize: string -> seq<string>) returns (lists: seq<TokenList>)
    ensures |lists| == |groups| && Distinct(lists)
    ensures forall k :: 0 <= k < |groups| ==> fresh(lists[k]) && lists[k].items == tokenize(groups[k].speech)
  {
    lists := [];
    for k := 0 to |groups|
      invariant |lists| == k && Distinct(lists)
      invariant forall j :: 0 <= j < k ==> fresh(lists[j]) && lists[j].items == tokenize(groups[j].speech)
    {
      var list := new TokenList(tokenize(groups[k].speech));
      lists := lists + [list];
    }
  }

  /** gensim's `TaggedDocument(words, tags)`; `words` is the list object itself, not a copy. */
  datatype TaggedDocument = TaggedDocument(words: TokenList, tags: seq<Id>)

  /** topic_model.py:92-96: each regrouped document becomes a tagged document of its word list, tagged with its id alone. */
  function Tag(groups: seq<Grouped>, lists: seq<TokenList>): (tagged: seq<TaggedDocument>)
    requires |lists| == |groups|
    ensures |tagged| == |groups|
    ensures forall k :: 0 <= k < |groups| ==> tagged[k].words == lists[k]
    ensures forall k :: 0 <= k < |groups| ==> |tagged[k].tags| == 1 && tagged[k].tags[0] == groups[k].doc.id
  {
    seq(|groups|, k requires 0 <= k < |groups| => TaggedDocument(lists[k], [groups[k].doc.id]))
  }

  /** topic_model.py:103: the word lists of the tagged documents, the same list objects, in order. */
  function Words(tagged: seq<TaggedDocument>): (docs: seq<TokenList>)
    ensures |docs| == |tagged| && forall k :: 0 <= k < |tagged| ==> docs[k] == tagged[k].words
  {
    seq(|tagged|, k requires 0 <= k < |tagged| => tagged[k].words)
  }

  predicate HasUnderscore(token: string)
  {
    '_' in token
  }

  /** The tokens that contain `'_'` (the joined bigrams), in order. */
  function Underscored(tokens: seq<string>): (r: seq<string>)
    ensures IsSubsequence(r, tokens)
    ensures forall t :: t in r <==> t in tokens && HasUnderscore(t)
  {
    if tokens == [] then []
    else if HasUnderscore(tokens[0]) then
      var rest := Underscored(tokens[1..]);
      assert ([tokens[0]] + rest)[1..] == rest;
      assert forall t :: t in tokens <==> t == tokens[0] || t in tokens[1..] by {
        assert tokens == [tokens[0]] + tokens[1..];
      }
      [tokens[0]] + rest
    else
      var rest := Underscored(tokens[1..]);
      assert forall t :: t in tokens <==> t == tokens[0] || t in tokens[1..] by {
        assert tokens == [tokens[0]] + tokens[1..];
      }
      assert rest != [] ==> rest[0] != tokens[0] by {
        if rest != [] {
          assert rest[0] in rest;
        }
      }
      rest
  }

  lemma {:induction false} UnderscoredAppend(a: seq<string>, b: seq<string>)
    ensures Underscored(a + b) == Underscored(a) + Underscored(b)
  {
    if a == [] {
      assert a + b == b;
    } else {
      assert (a + b)[0] == a[0] && (a + b)[1..] == a[1..] + b;
      UnderscoredAppend(a[1..], b);
    }
  }

  /** A document after the bigram loop: its tokens, then the bigrams the phrase model reports for it. */
  function WithBigrams(doc: seq<string>, phrase: seq<string> -> seq<string>): seq<string>
  {
    doc + Underscored(phrase(doc))
  }

  /**
   * The bigram loop keeps a document's tokens as a prefix and appends exactly
   * the phrase model's tokens that contain `'_'`, in its order.
   */
  lemma WithBigramsShape(doc: seq<string>, phrase: seq<string> -> seq<string>)
    ensures |doc| <= |WithBigrams(doc, phrase)| && WithBigrams(doc, phrase)[..|doc|] == doc
    ensures IsSubsequence(WithBigrams(doc, phrase)[|doc|..], phrase(doc))
    ensures forall t :: t in WithBigrams(doc, phrase)[|doc|..] <==> t in phrase(doc) && HasUnderscore(t)
  {
    assert WithBigrams(doc, phrase)[|doc|..] == Underscored(phrase(doc));
  }

  /**
   * topic_model.py:108-111: for each document in turn, every token of the
   * phrase model's output that contains an underscore is appended to that
   * document's own list. The phrase model's output is computed once per
   * document, before the appends.
   */
  method AppendBigrams(docs: seq<TokenList>, phrase: seq<string> -> seq<string>)
    requires Distinct(docs)
    modifies set k | 0 <= k < |docs| :: docs[k]
    ensures forall k :: 0 <= k < |docs| ==> docs[k].items == WithBigrams(old(docs[k].items), phrase)
  {
    for idx := 0 to |docs|
      invariant forall k :: 0 <= k < idx ==> docs[k].items == WithBigrams(old(docs[k].items), phrase)
      invariant forall k :: idx <= k < |docs| ==> docs[k].items == old(docs[k].items)
    {
      var doc := docs[idx];
      var out := phrase(doc.items);
      for j := 0 to |out|
        invariant doc.items == old(doc.items) + Underscored(out[..j])
        invariant forall k :: 0 <= k < idx ==> docs[k].items == WithBigrams(old(docs[k].items), phrase)
        invariant forall k :: idx < k < |docs| ==> docs[k].items == old(docs[k].items)
      {
        UnderscoredAppend(out[..j], [out[j]]);
        assert out[..j + 1] == out[..j] + [out[j]];
        if '_' in out[j] {
          doc.Append(out[j]);
        }
      }
      assert out[..|out|] == out;
    }
  }

  /**
   * Lines 87 to 111: tokenize each regrouped document, tag it, take the word
   * lists and extend them with bigrams. The lists are shared, so the tagged
   * documents (pickled afterwards) carry the bigrams too.
   */
  method PrepareDocuments(groups: seq<Grouped>, tokenize: string -> seq<string>, phrase: seq<string> -> seq<string>)
    returns (tagged: seq<TaggedDocument>, docs: seq<TokenList>)
    ensures |tagged| == |groups| && |docs| == |groups|
    ensures forall k :: 0 <= k < |groups| ==> docs[k] == tagged[k].words && tagged[k].tags == [groups[k].doc.id]
    ensures forall k :: 0 <= k < |groups| ==> docs[k].items == WithBigrams(tokenize(groups[k].speech), phrase)
  {
    var lists := Retokenize(groups, tokenize);
    tagged := Tag(groups, lists);
    docs := Words(tagged);
    AppendBigrams(docs, phrase);
  }

  /** topic_model.py:132: one bag of words per document, in document order. */
  function Corpus<B>(docs: seq<seq<string>>, doc2bow: seq<string> -> B): (corpus: seq<B>)
    ensures |corpus| == |docs|
    ensures forall k :: 0 <= k < |docs| ==> corpus[k] == doc2bow(docs[k])
  {
    seq(|docs|, k requires 0 <= k < |docs| => doc2bow(docs[k]))
  }
}
