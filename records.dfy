/**
 * The columns that identify a speech in the cleaned data set
 * (`id`, `speaker`, `date`, `title`, `decade`) and the order in which
 * pandas sorts them as `groupby` keys.
 */
module Records {
  import opened Ordering

  /** A speech identifier, the `id` column (also the single tag of a tagged document). */
  type Id = string

  /** A `datetime64` value of the `date` column, at day resolution. */
  datatype Date = Date(year: int, month: int, day: int)

  /** Chronological order of dates. */
  predicate DateLess(a: Date, b: Date)
  {
    if a.year != b.year then a.year < b.year
    else if a.month != b.month then a.month < b.month
    else a.day < b.day
  }

  /** `date.dt.to_period('Y')`: the calendar year of a date. */
  function YearOf(d: Date): int
  {
    d.year
  }

  /** The group key used when tokens are regrouped into documents. */
  datatype DocKey = DocKey(id: Id, speaker: string, date: Date, title: string, decade: int)

  /** Lexicographic order on the key tuple, as pandas sorts multi-column group keys. */
  predicate KeyLess(a: DocKey, b: DocKey)
  {
    if a.id != b.id then StringLess(a.id, b.id)
    else if a.speaker != b.speaker then StringLess(a.speaker, b.speaker)
    else if a.date != b.date then DateLess(a.date, b.date)
    else if a.title != b.title then StringLess(a.title, b.title)
    else a.decade < b.decade
  }

  lemma DateLessIsStrictTotalOrder()
    ensures StrictTotalOrder(DateLess)
  {
  }

  lemma KeyLessIsStrictTotalOrder()
    ensures StrictTotalOrder(KeyLess)
  {
    StringLessIsStrictTotalOrder();
    DateLessIsStrictTotalOrder();
    forall a, b, c | KeyLess(a, b) && KeyLess(b, c) ensures KeyLess(a, c) {
      KeyLessTransitive(a, b, c);
    }
  }

  lemma KeyLessTransitive(a: DocKey, b: DocKey, c: DocKey)
    requires StrictTotalOrder(StringLess) && StrictTotalOrder(DateLess)
    requires KeyLess(a, b) && KeyLess(b, c)
    ensures KeyLess(a, c)
  {
  }
}
