# UNHCR speeches: token pipeline and topics over time

A Dafny model of the bookkeeping in three notebooks of the UNHCR speeches
repository. The NLTK tokenizer and lemmatizer, gensim's phrase model,
`doc2bow` and the fitted LDA model all appear as parameters.

- **topic_model.py.** The speeches are tokenized and exploded to one token per row. The token column is
  lemmatized by joining all lemmas with spaces and splitting the text again. Stopwords (configured, English,
  Spanish, French) and punctuation are filtered out. The surviving tokens are regrouped per
  `(id, speaker, date, title, decade)` into one space-joined text, in pandas' sorted group order, then
  re-tokenized. Each document is tagged with its single id. Bigram tokens (those containing `_`) are appended
  in place to each document's word list. That list is shared with the tagged documents.
- **descriptive_analysis.py.** The same shape: explode, drop stopwords, lemmatize, then drop stopwords and
  punctuation again. The stoplist here is the configured list plus English only. Because stopwords go before
  lemmatization, the result can differ from topic_model.py's.
- **topics_over_time.py.** The scatter onto a document-by-topic frame of ten columns is a method over an
  `array2<real>`: the first 693 documents' sparse `(topic, weight)` lists are written into it. After that:
  - the frame is joined with the tagged documents' exploded tags, then with the distinct `(id, date)` rows of
    the cleaned speeches;
  - each row gets a year and a count of 1, and the columns are renamed and reordered;
  - per year, the topic weights are summed and divided by the count.

Weights are exact reals.

Modules:
- `Wrappers`: Option, Result and Outcome.
- `Ordering`: strict total orders, pandas' sorted group keys, and Python's `str` order.
- `Text`: `str.split()`, `' '.join`, `str(int)`.
- `Records`: speech keys and dates.
- `TokenFilter`: explode, `filter_column_isin(…, complement=True)`, and lemmatizing by join and split.
- `TopicModel`, `DescriptiveAnalysis`, `TopicMatrix` and `TopicsOverTime`: the three scripts.

Facts about the code that shape the model:

- The frame always has exactly ten topic columns, whatever topic count the model was fitted with. A topic
  index of 10 or more has no column and stops the script with a KeyError (`ExampleTopicTen`).
- Both merges are inner joins. Rows without a partner on the other side are dropped silently
  (`MergeOnIdMembers`, `MergeOnIndexAligned`). Every matching pair gives one row, so an id kept with two dates
  is joined and counted twice (`MergeOnIdCount`, `DuplicateIdJoinsTwice`).
- The scatter loop runs over the literal range 693, not over the number of documents:
  - with fewer documents the script fails with a KeyError (`ShortCorpusFails`);
  - with more, the extra rows stay zero (`ScatteredEntry`).
- The final frame keeps only the year and the ten means; the per-year count is used as the divisor and then
  left out.

## Model

| member | source | states |
|---|---|---|
| Text.SplitGivesWords | topic_model.py:68 | every piece `str.split()` returns is non-empty and free of Python whitespace |
| Text.Split | topic_model.py:68 | Python's `str.split()` with no argument: the maximal runs of non-whitespace characters, in order; its properties are stated by `SplitGivesWords`, `SplitJoin` and `SplitWord` |
| Text.Join | topic_model.py:68 | `' '.join`: the words with one separator between neighbours; `SplitJoin` states that splitting undoes it for whitespace-free words |
| Text.SplitJoin | topic_model.py:68 | splitting the single-space join of whitespace-free words gives exactly those words back |
| Text.SplitWord | descriptive_analysis.py:60 | a word followed by nothing or by whitespace splits off as the first piece |
| Text.WordEnd | topic_model.py:68 | the end of a run of non-space characters: everything before it is non-space, and the character at it is space |
| Text.Decimal | topics_over_time.py:55 | `str(n)` has at least one digit, and exactly one iff `n < 10` |
| Text.IntToString | topics_over_time.py:62 | `str(t)` of a topic index: the decimal digits, after a minus sign when the index is negative; `ColumnLookup` states that it names a column exactly for 0 to 9 |
| Ordering.InsertKeepsSorted | topic_model.py:82 | inserting a key into a strictly sorted key list keeps it strictly sorted, and adds exactly that key |
| Ordering.SortedKeysSpec | topic_model.py:82 | the group keys are strictly ascending and are exactly the keys that occur |
| Ordering.SortedKeys | topic_model.py:82 | the keys that occur, each once, put in order by insertion; `SortedKeysSpec` states that they are strictly ascending and exactly the keys present |
| Ordering.StringLessIrreflexive | topic_model.py:82 | Python's `str` `<` is irreflexive |
| Ordering.StringLessTransitive | topic_model.py:82 | Python's `str` `<` is transitive |
| Ordering.StringLessTotal | topic_model.py:82 | of two different strings, one is below the other |
| Ordering.StringLessIsStrictTotalOrder | topic_model.py:82 | Python's `str` `<` is a strict total order |
| Ordering.IntLessIsStrictTotalOrder | topics_over_time.py:138-139 | `<` on years is a strict total order |
| Records.DateLessIsStrictTotalOrder | topic_model.py:82 | chronological order on dates is a strict total order |
| Records.KeyLessTransitive | topic_model.py:82 | the lexicographic order on `(id, speaker, date, title, decade)` is transitive |
| Records.KeyLessIsStrictTotalOrder | topic_model.py:82 | the lexicographic key order is a strict total order, so regrouping has well-defined sorted groups |
| Records.YearOf | topics_over_time.py:99 | the calendar year of a date; `AddYear` states that every row gets its date's year |
| TokenFilter.Tokens | topic_model.py:61 | a column of tokens has one token per row |
| TokenFilter.Explode | topic_model.py:58-61 | every speech tokenized and exploded to one row per token, speeches in table order, a NaN row for a speech without tokens; `ExplodeSpec` states its content |
| TokenFilter.ExplodeOneTokens | topic_model.py:61 | one speech's rows hold text exactly when it has tokens, and then they are its tokens in order |
| TokenFilter.ExplodeSpec | topic_model.py:58-61 | the exploded rows hold only text exactly when no speech tokenizes to nothing; then the tokens are all speeches' tokens in order |
| TokenFilter.FilterOutMembers | topic_model.py:73-79 | a row survives the filter exactly when it was there and its token is not listed |
| TokenFilter.FilterOut | topic_model.py:73-79 | pyjanitor's complement filter: keep the rows whose token is not listed, NaN rows included; `FilterOutMembers` and `FilterOutSubsequence` state what it keeps |
| TokenFilter.FilterOutAppend | topic_model.py:73-79 | filtering distributes over concatenation |
| TokenFilter.FilterOutSubsequence | topic_model.py:73-79 | the filtered rows are a subsequence of the input, so order is kept and the count never grows |
| TokenFilter.FilterOutIdempotent | descriptive_analysis.py:65-67 | filtering twice with the same list is filtering once |
| TokenFilter.FilterOutTwice | topic_model.py:73-79 | a stopword filter followed by a punctuation filter is one filter by both lists |
| TokenFilter.FilterOutSameListed | descriptive_analysis.py:50-52 | two lists with the same members filter alike |
| TokenFilter.FirstMissing | topic_model.py:68 | the first NaN row, and none exactly when every row holds text |
| TokenFilter.Lemmas | topic_model.py:68 | one lemma per row |
| TokenFilter.MapLemmas | topic_model.py:68 | one lemmatized row per row, on the same documents |
| TokenFilter.LemmatizeColumn | topic_model.py:68 | fails on a NaN token exactly when a row has no text; on success the column keeps its length, holds only text, stays on the same documents, and every token is a single whitespace-free word |
| TokenFilter.LemmatizeAligned | descriptive_analysis.py:60 | when every lemma is a single word, each row gets its own token's lemma |
| TokenFilter.LemmatizeCanShiftTokens | topic_model.py:68 | a lemma with a space and an empty lemma shift the split tokens onto other rows |
| TopicModel.Stoplist | topic_model.py:49 | the stoplist is the configured words plus the English, Spanish and French NLTK lists |
| TopicModel.CleanTokens | topic_model.py:58-79 | tokenize and explode, lemmatize the column, then drop stopwords and punctuation; `CleanTokensFiltered`, `CleanTokensAreWords` and `CleanTokensOnWords` state what comes out |
| TopicModel.CleanTokensFiltered | topic_model.py:58-79 | no surviving token is a stopword or a punctuation symbol |
| TopicModel.CleanTokensAreWords | topic_model.py:68-79 | every surviving token is a non-empty word without whitespace, as the split at line 68 leaves it |
| TopicModel.CleanTokensFailsOnEmptySpeech | topic_model.py:58-68 | a speech that tokenizes to nothing stops the run at the lemmatizer |
| TopicModel.CleanTokensOnWords | topic_model.py:58-79 | with single-word lemmas, the result is the lemmatized rows without stopwords or punctuation, in order |
| TopicModel.RegroupKeys | topic_model.py:82 | groups come in strictly ascending key order, one per key with a surviving token and no other |
| TopicModel.Regroup | topic_model.py:82 | one document per key in ascending key order, its tokens joined with spaces; `RegroupKeys` and `RegroupText` state its keys and texts |
| TopicModel.TokensOfPresent | topic_model.py:82 | a key with rows has at least one token |
| TopicModel.TokensOfFromRows | topic_model.py:82 | every token of a group is the token of some row with that group's key |
| TopicModel.RegroupText | topic_model.py:82 | each group's text splits back into exactly that document's tokens, in row order |
| TopicModel.Documents | topic_model.py:58-82 | the cleaned tokens regrouped into one text per speech key, or the lemmatizer's error; `DocumentsSplitBack` states what each text holds |
| TopicModel.DocumentsSplitBack | topic_model.py:58-87 | every document handed to re-tokenizing is non-empty and splits back into its speech's cleaned tokens, in row order |
| TopicModel.TokenList.constructor | topic_model.py:87 | a new word list holds the given tokens |
| TopicModel.TokenList.Append | topic_model.py:111 | `list.append` adds the token at the end |
| TopicModel.Retokenize | topic_model.py:87 | one fresh, unshared word list per group, holding the tokenized text |
| TopicModel.Tag | topic_model.py:92-96 | one tagged document per group, in order, with the group's word list and exactly one tag, its id |
| TopicModel.Words | topic_model.py:101-103 | the tagged documents' word lists, the same list objects and in the same order |
| TopicModel.Underscored | topic_model.py:109-110 | the kept bigram tokens are a subsequence of the phrase output, and exactly its tokens containing `_` |
| TopicModel.UnderscoredAppend | topic_model.py:109-110 | picking underscored tokens distributes over concatenation |
| TopicModel.WithBigramsShape | topic_model.py:108-111 | a document keeps its tokens as a prefix, followed by exactly the phrase output's `_` tokens in output order |
| TopicModel.AppendBigrams | topic_model.py:108-111 | in place, every document list gets its bigram tokens appended, and nothing else changes |
| TopicModel.PrepareDocuments | topic_model.py:87-111 | the bigram lists are the tagged documents' own word lists, so the tags see the appended tokens; the document count stays the same |
| TopicModel.Corpus | topic_model.py:132 | one bag of words per document, in document order |
| DescriptiveAnalysis.Stoplist | descriptive_analysis.py:37-38 | the stoplist is the configured words plus the English NLTK list only |
| DescriptiveAnalysis.Describe | descriptive_analysis.py:43-75 | explode, drop stopwords, lemmatize, then drop stopwords and punctuation; `DescribeFiltered` and `DescribeOnWords` state what comes out |
| DescriptiveAnalysis.DescribeFiltered | descriptive_analysis.py:43-71 | no final token is a stopword or a punctuation symbol |
| DescriptiveAnalysis.DescribeFailsOnEmptySpeech | descriptive_analysis.py:43-60 | the first filter keeps the NaN row of an empty speech, so the lemmatizer still fails |
| DescriptiveAnalysis.DescribeOnWords | descriptive_analysis.py:43-75 | with single-word lemmas: drop stopwords, lemmatize, then drop stopwords and punctuation, in order |
| DescriptiveAnalysis.StopwordBeforeLemma | descriptive_analysis.py:50-60 | a stopword whose lemma is not a stopword is dropped here but survives as its lemma in topic_model.py |
| TopicMatrix.ColumnNames | topics_over_time.py:54-55 | exactly ten topic column names, whatever topic count the model has |
| TopicMatrix.BuildColumns | topics_over_time.py:54-55 | the loop creates the columns `str(0)` to `str(9)` in order |
| TopicMatrix.NewTopicFrame | topics_over_time.py:52-58 | a fresh frame with one row per document and ten topic columns, every entry 0 |
| TopicMatrix.IndexOf | topics_over_time.py:62 | the first column of that name, or none exactly when there is no such column |
| TopicMatrix.ColumnNameIsDigit | topics_over_time.py:55 | column `i` is named by the single digit `i` |
| TopicMatrix.ColumnLookup | topics_over_time.py:62 | `str(t)` names a column exactly when `0 <= t < 10`, and then it is column `t` |
| TopicMatrix.ColumnOf | topics_over_time.py:62 | the column a topic index writes to, and a KeyError for any index outside 0 to 9 |
| TopicMatrix.LastWriteWins | topics_over_time.py:60-62 | of several pairs for one topic, the last one's weight stays |
| TopicMatrix.AbsentTopicIsZero | topics_over_time.py:60-62 | a topic missing from a document's list keeps its 0 |
| TopicMatrix.LastWeight | topics_over_time.py:60-62 | the weight a topic's cell holds after one document's writes: the last pair naming it, or 0; `LastWriteWins`, `AbsentTopicIsZero` and `LastWeightSnoc` state it |
| TopicMatrix.DenseRow | topics_over_time.py:60-62 | a document's frame row after the loop, one `LastWeight` per column; `ScatteredEntry` and `DenseRowSum` state its entries and total |
| TopicMatrix.LastWeightSnoc | topics_over_time.py:62 | one more write changes only its own topic's cell |
| TopicMatrix.SumUpdate | topics_over_time.py:62 | overwriting one cell changes the row total by the difference |
| TopicMatrix.ZeroSum | topics_over_time.py:58 | a fresh row totals 0 |
| TopicMatrix.DenseRowSum | topics_over_time.py:60-62 | with distinct valid topics, the dense row totals the sparse list's weights |
| TopicMatrix.FirstUnknownTopic | topics_over_time.py:61-62 | the first topic index without a column, and none exactly when all are in range |
| TopicMatrix.Scattered | topics_over_time.py:52-62 | the frame after the loop, row by row, or the first error in loop order; `ScatteredEntry` and `ScatterSucceeds` state its entries and when it fails |
| TopicMatrix.ScatteredEntry | topics_over_time.py:60-62 | entry `(i, t)` is the last weight for `t` in document `i`, 0 if none, and 0 in rows from 693 on |
| TopicMatrix.ScanFromNone | topics_over_time.py:60-62 | the loop from row `i` stops with no error exactly when enough rows exist and every topic index in them is in range |
| TopicMatrix.ScatterSucceeds | topics_over_time.py:60-62 | the scatter goes through exactly when there are at least 693 documents and every pair of the first 693 names one of the ten columns |
| TopicMatrix.ScatterRow | topics_over_time.py:61-62 | writes one document's pairs in place, stopping at the first unknown topic, and leaves the other rows alone |
| TopicMatrix.Scatter | topics_over_time.py:60-62 | in place, fails exactly with the first missing row or unknown topic; otherwise the frame is the scattered matrix |
| TopicsOverTime.ExplodeTagsOfMembers | topics_over_time.py:74 | one document's tag rows are its tags, or one NaN row if it has none |
| TopicsOverTime.ExplodeTags | topics_over_time.py:74 | the tag lists exploded to one row per tag, each carrying its document's index, and a NaN row for a document without tags; `ExplodeTagsMembers` and `ExplodeSingleTags` state its rows |
| TopicsOverTime.ExplodeTagsMembers | topics_over_time.py:74 | a tag row exists exactly for a tag of that document, and a NaN row exactly for a document without tags |
| TopicsOverTime.ExplodeSingleTags | topics_over_time.py:74 | with one tag per document, row `k` of the exploded table is document `k` and its tag |
| TopicsOverTime.MergeOnIndex | topics_over_time.py:76-79 | the inner join of the frame rows with the tag rows on the document position, frame row by frame row; `MergeSequential` and `MergeOnIndexAligned` state its rows |
| TopicsOverTime.MergeSequentialLength | topics_over_time.py:76-79 | against consecutively numbered tag rows, the join has as many rows as the shorter side |
| TopicsOverTime.MergeSequentialAt | topics_over_time.py:76-79 | against consecutively numbered tag rows, joined row `k` is frame row `k` with tag row `k`'s tag |
| TopicsOverTime.MatchIndexSequential | topics_over_time.py:76-77 | against consecutively indexed tag rows, a frame row matches exactly its own tag row |
| TopicsOverTime.MergeSequential | topics_over_time.py:76-79 | against consecutively indexed tag rows, the join pairs rows position by position and drops the longer side's extra rows |
| TopicsOverTime.MergeOnIndexAligned | topics_over_time.py:74-79 | with one tag per document, frame row `k` is joined with document `k`'s tag; the extra rows of the longer side are dropped |
| TopicsOverTime.TagLists | topics_over_time.py:74 | one tag list per tagged document |
| TopicsOverTime.TaggedDocumentsAlign | topics_over_time.py:74-79 | for the documents topic_model.py tags, frame row `k` is joined with the id of group `k` |
| TopicsOverTime.DropDuplicates | topics_over_time.py:84-90 | the kept rows are distinct and are exactly the rows that occur |
| TopicsOverTime.DropDuplicatesOfDistinct | topics_over_time.py:84-90 | rows that are already distinct come through unchanged, in order |
| TopicsOverTime.MergeOnId | topics_over_time.py:95-96 | the inner join of the `(id, date)` rows with the topic rows whose tag is that id, in left-row order; `MergeOnIdMembers` and `MergeOnIdCount` state its rows and their number |
| TopicsOverTime.MatchIdCount | topics_over_time.py:95 | one `(id, date)` row is joined once for every topic row tagged with its id, however many there are |
| TopicsOverTime.MatchIdMembers | topics_over_time.py:95 | the joined rows for one id are exactly the topic rows tagged with that id, with its date |
| TopicsOverTime.MergeOnIdMembers | topics_over_time.py:95-96 | a joined row exists exactly for an `(id, date)` row and a topic row tagged with that id; unmatched rows and NaN tags are dropped |
| TopicsOverTime.MergeOnIdCount | topics_over_time.py:95-96 | the join has exactly one row per matching pair of an `(id, date)` row and a topic row, counted by their positions |
| TopicsOverTime.DuplicateIdJoinsTwice | topics_over_time.py:84-96 | an id with two different dates survives the deduplication twice, and its topic row is joined once for each date |
| TopicsOverTime.AddYear | topics_over_time.py:99 | each row gets the calendar year of its date, and nothing else changes |
| TopicsOverTime.SetColumns | topics_over_time.py:104-115 | renaming succeeds exactly for a list of the frame's width; otherwise it fails with both widths |
| TopicsOverTime.SelectColumnsSpec | topics_over_time.py:117-128 | selection succeeds exactly when every name is a column, and gives each named column's cell in the order named; otherwise it fails on a missing name |
| TopicsOverTime.SelectColumns | topics_over_time.py:117-128 | selecting columns by name on one row, with a KeyError for a missing name; `SelectColumnsSpec` states its result |
| TopicsOverTime.SelectAppend | topics_over_time.py:117-128 | selecting two name lists in turn selects their concatenation |
| TopicsOverTime.SelectRun | topics_over_time.py:117-128 | over distinct names, selecting a run of columns gives that run of cells |
| TopicsOverTime.SelectLastSecond | topics_over_time.py:117-128 | over twelve distinct columns, moving the last name to second place moves its cell likewise |
| TopicsOverTime.YearCells | topics_over_time.py:99 | a row has one cell per column of the frame |
| TopicsOverTime.Weights | topics_over_time.py:96 | a topic row has ten weight cells |
| TopicsOverTime.RenamedColumnsDistinct | topics_over_time.py:104-115 | the twelve new names are distinct |
| TopicsOverTime.ReportColumnsOrder | topics_over_time.py:117-128 | the report order is date, year, then the ten topic names in the renamed order |
| TopicsOverTime.TopicLabels | topics_over_time.py:104-115 | column `str(i)` is frame column `i + 1` and is renamed `topic {i+1}` |
| TopicsOverTime.YearCellsParts | topics_over_time.py:117-128 | the date cell, the year cell and the ten weight cells sit where the selection takes them |
| TopicsOverTime.ReportSelection | topics_over_time.py:117-128 | the selection lists date, year and the ten weights, each value unchanged |
| TopicsOverTime.Relabel | topics_over_time.py:104-128 | the renaming fits the width of the frame, labels topic `i` as `topic {i+1}`, and the reordering keeps every value |
| TopicsOverTime.AddCount | topics_over_time.py:133 | every row gets count 1, and nothing else changes |
| TopicsOverTime.InYear | topics_over_time.py:138-143 | a year's group holds exactly the rows of that year, each as many times as it occurs in the frame |
| TopicsOverTime.GroupSumsYears | topics_over_time.py:138-143 | groups are strictly ascending by year, one per year present and no other |
| TopicsOverTime.GroupSums | topics_over_time.py:138-143 | per year, in ascending order, the count total and the column sums of its rows; `GroupSumsYears` and `GroupCounts` state its years and counts |
| TopicsOverTime.CountTotalOfOnes | topics_over_time.py:133-142 | rows that each count 1 sum to their number |
| TopicsOverTime.InYearOfOnes | topics_over_time.py:133-142 | a year's group keeps the count 1 of every row |
| TopicsOverTime.GroupCounts | topics_over_time.py:133-143 | each year's count is its number of rows, and at least 1 |
| TopicsOverTime.YearGroupCount | topics_over_time.py:133-142 | a year that has a row counts exactly its rows, and at least one |
| TopicsOverTime.DivideByCount | topics_over_time.py:148-152 | each year's sums divided by its count; `SharesAreMeans` states the result as the yearly means |
| TopicsOverTime.Shares | topics_over_time.py:133-152 | the count, the yearly sums and the division on rows that each count 1; `SharesAreMeans` and `SharesSumToOne` state its rows |
| TopicsOverTime.SharesAreMeans | topics_over_time.py:133-152 | one result row per year present, ascending; each weight is that topic's column sum over the year's rows divided by their number |
| TopicsOverTime.SingleRowYear | topics_over_time.py:148-152 | a year with one document reports that document's vector |
| TopicsOverTime.SumOfSums | topics_over_time.py:142 | a sum of added rows is the sum of their sums |
| TopicsOverTime.SumScaled | topics_over_time.py:150 | dividing every weight by the count divides their total |
| TopicsOverTime.ColumnSumsTotal | topics_over_time.py:138-143 | when each row totals 1, a year's column sums total the number of its rows |
| TopicsOverTime.MeanOfUnitRows | topics_over_time.py:148-152 | the means of rows that each total 1 total 1 |
| TopicsOverTime.SharesSumToOne | topics_over_time.py:133-152 | when every document's weights total 1, every year's mean weights total 1 |
| TopicsOverTime.Aggregate | topics_over_time.py:64-152 | the tag merge, the deduplication, the id merge, the year, the count and the yearly means applied to the scattered frame |
| TopicsOverTime.TopicsOverTime | topics_over_time.py:46-152 | the scatter's KeyError, or the aggregation of the scattered frame; `ComputeTopicsOverTime` runs it on an array and `ShortCorpusFails` and `ExampleTopicTen` state its errors |
| TopicsOverTime.ComputeTopicsOverTime | topics_over_time.py:46-152 | the whole script on a frame of its own: builds it, scatters into it, and returns the scatter's error or the yearly means |
| TopicsOverTime.ExampleTopicTen | topics_over_time.py:62 | a topic index of 10 stops the script with an out-of-range KeyError |
| TopicsOverTime.ScanFromShort | topics_over_time.py:60-61 | with fewer than 693 well-formed documents, the loop stops at the first missing row |
| TopicsOverTime.ShortCorpusFails | topics_over_time.py:60-61 | fewer than 693 documents stop the script at the first missing row |
| TopicsOverTime.ExampleSingleDocument | topics_over_time.py:60-152 | the pairs `(0, 0.7)` and `(3, 0.3)` of one 2020 document give the dense row and the 2020 result `[0.7, 0, 0, 0.3, 0, 0, 0, 0, 0, 0]` |

## Left out

- File and artifact I/O is not modelled: feather, JSON, pickle, YAML parameters, `MmCorpus.serialize` and `dictionary.save`. The parameters and loaded tables are inputs of the members.
- LDA fitting and inference are lists given as input: `LdaModel` and `get_document_topics`.
- The NLTK tokenizer and lemmatizer, gensim's `Phrases` and `doc2bow` are function parameters. Only the shape of their use is modelled.
- gensim's dictionary pruning in `prep_corpus` is left out: stopword ids, `filter_extremes` and `compactify` (topic_model.py:117-129). It is library code run on the vocabulary. `Corpus` takes `doc2bow` as a given function.
- prepare_dataset.py is not part of this model: its regular expressions run on Python's `re` engine, and its dates on `pd.to_datetime`.
- `dt.to_period('Y')` is modelled as the calendar year of a date, and dates as year, month and day.
- IEEE floating point is not modelled: weights are exact reals. Sums of a year's weights that total 1 exactly may not do so in floating point.
- Plotting, pyLDAvis, logging and `value_counts` are not modelled.
- pyjanitor's own argument checks in `filter_column_isin` are not modelled, nor pandas' dtype handling.
- NaN group keys are not modelled: the key columns and the `id` column are taken as never null.
- TopicsOverTime.MergeOnIndex: the join lists its rows in left-row order, with each row's matches in right-row order. This is taken to be the order pandas gives an inner merge.
- TopicsOverTime.MergeOnId: the same row order as `MergeOnIndex`. The `index` columns that each `reset_index` adds are dropped by the next column selection, so they are not modelled. Ids repeat on the left side (an id kept with two dates), and pandas before 2.2 lists an inner merge's equal left keys together rather than in left-row order. The per-year result does not depend on this order, because `Shares` only adds exact reals within each year.
- TopicMatrix.Scatter: the chained assignment `af[col].loc[i] = w` is taken to write through to the frame, as pandas does without copy-on-write. On failure, the partly written frame is not described, because the script stops there.
- TopicMatrix.Scatter: the frame's `topics` column of raw lists, carried along by the concatenation at line 58, is not modelled. The column selection at line 78 drops it.
- TopicsOverTime.DropDuplicates: the contract states the kept rows and that they are distinct. That the first occurrence of each is kept, in order, is stated only for distinct input (`DropDuplicatesOfDistinct`).
- TopicsOverTime.DivideByCount: requires nonzero counts, where pandas would divide to infinity; every group has at least one row (`GroupCounts`).
- TopicsOverTime.SelectColumnsSpec: a column name that occurs twice would make pandas return every such column. The model returns the first, which is all that can happen for the distinct names of this script.
- TopicModel.TokenList.Append: Python lists are modelled as objects holding a `seq`. Only the aliasing between `docs` and the tagged documents' word lists is modelled.
