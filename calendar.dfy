/**
 * Calendar days as the screens read them from a JavaScript `Date`:
 * `getFullYear()`, `getMonth()` and `getDate()`. Time of day and time zone are
 * not part of the model; only the chronological order of days matters.
 */
module Calendar {

  datatype Date = Date(year: int, month: int, day: int)

  /** `a` is the same day as `b` or an earlier one (lexicographic on year, month, day). */
  predicate NotAfter(a: Date, b: Date)
  {
    || a.year < b.year
    || (a.year == b.year && (a.month < b.month || (a.month == b.month && a.day <= b.day)))
  }

  /** `a` is strictly earlier than `b`. */
  predicate Before(a: Date, b: Date)
  {
    !NotAfter(b, a)
  }

  lemma NotAfterIsTotalOrder(a: Date, b: Date, c: Date)
    ensures NotAfter(a, a)
    ensures NotAfter(a, b) || NotAfter(b, a)
    ensures NotAfter(a, b) && NotAfter(b, a) ==> a == b
    ensures NotAfter(a, b) && NotAfter(b, c) ==> NotAfter(a, c)
    ensures Before(a, b) <==> NotAfter(a, b) && a != b
  {
  }

}
