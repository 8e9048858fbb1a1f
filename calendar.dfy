// Calendar months, the `YYYY-MM` keys under which the tracker stores
// allocations and actual costs.

module Calendar {

  /** A `YYYY-MM` month key as a (year, month) pair. */
  datatype MonthKey = MonthKey(year: int, month: int)

  /** A key names a real month: its month part is 01 to 12. */
  predicate Valid(k: MonthKey) {
    1 <= k.month <= 12
  }

  /** Months counted from January of year 0; consecutive calendar months have
      consecutive indices. */
  function Index(k: MonthKey): int {
    k.year * 12 + (k.month - 1)
  }

  /** The month with a given index. */
  function FromIndex(i: int): (k: MonthKey)
    ensures Valid(k) && Index(k) == i
  {
    MonthKey(i / 12, i % 12 + 1)
  }

  /** A valid month is determined by its index. */
  lemma IndexInjective(a: MonthKey, b: MonthKey)
    requires Valid(a) && Valid(b) && Index(a) == Index(b)
    ensures a == b
  {
  }

  /** The 12 column keys `Y-01` .. `Y-12` of the selected year, in order. */
  function MonthsOfYear(year: int): (ks: seq<MonthKey>)
    ensures |ks| == 12
    ensures forall i :: 0 <= i < 12 ==> ks[i] == MonthKey(year, i + 1)
    ensures forall k :: k in ks <==> Valid(k) && k.year == year
    ensures forall i :: 0 <= i < 11 ==> Index(ks[i + 1]) == Index(ks[i]) + 1
  {
    var ks := seq(12, i requires 0 <= i < 12 => MonthKey(year, i + 1));
    assert forall k :: Valid(k) && k.year == year ==> ks[k.month - 1] == k;
    ks
  }

  /** `getPreviousMonth`: the calendar month one before `k`. January of a year
      goes back to December of the year before. */
  function PreviousMonth(k: MonthKey): (p: MonthKey)
    requires Valid(k)
    ensures Valid(p) && Index(p) == Index(k) - 1
    ensures p.year == if k.month == 1 then k.year - 1 else k.year
  {
    if k.month == 1 then MonthKey(k.year - 1, 12) else MonthKey(k.year, k.month - 1)
  }

  /** The calendar month one after `k`, the inverse of `PreviousMonth`. */
  function NextMonth(k: MonthKey): (n: MonthKey)
    requires Valid(k)
    ensures Valid(n) && Index(n) == Index(k) + 1
  {
    if k.month == 12 then MonthKey(k.year + 1, 1) else MonthKey(k.year, k.month + 1)
  }

  /** Stepping back one month and forward one month, in either order, returns
      to the same month. */
  lemma PreviousNextRoundTrip(k: MonthKey)
    requires Valid(k)
    ensures NextMonth(PreviousMonth(k)) == k
    ensures PreviousMonth(NextMonth(k)) == k
  {
    IndexInjective(NextMonth(PreviousMonth(k)), k);
    IndexInjective(PreviousMonth(NextMonth(k)), k);
  }

  /** `PreviousMonth` applied `n` times. */
  function MonthsBack(k: MonthKey, n: nat): (p: MonthKey)
    requires Valid(k)
    ensures Valid(p)
    decreases n
  {
    if n == 0 then k else PreviousMonth(MonthsBack(k, n - 1))
  }

  /** Repeated application does not drift: going back `n` months lands on the
      month whose index is `n` smaller, across any number of year boundaries. */
  lemma {:induction false} MonthsBackIsExact(k: MonthKey, n: nat)
    requires Valid(k)
    ensures MonthsBack(k, n) == FromIndex(Index(k) - n)
    decreases n
  {
    if n > 0 {
      MonthsBackIsExact(k, n - 1);
    }
    IndexInjective(MonthsBack(k, n), FromIndex(Index(k) - n));
  }

  /** Going back twelve months keeps the month and decrements the year. */
  lemma {:induction false} TwelveMonthsBack(k: MonthKey)
    requires Valid(k)
    ensures MonthsBack(k, 12) == MonthKey(k.year - 1, k.month)
  {
    MonthsBackIsExact(k, 12);
    IndexInjective(FromIndex(Index(k) - 12), MonthKey(k.year - 1, k.month));
  }
}
