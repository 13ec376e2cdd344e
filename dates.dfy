/** Calendar dates and clock readings. A date is a day number (midnight of
    that day); a timestamp is a day number plus the time of day, which is what
    `pd.Timestamp.today()` and anything derived from it carry. */
module Dates {

  const NanosPerDay: nat := 86_400_000_000_000

  type Nanos = n: nat | n < NanosPerDay

  datatype Timestamp = Timestamp(day: int, nanos: Nanos)

  /** A date as a timestamp: midnight of that day. */
  function Midnight(date: int): Timestamp {
    Timestamp(date, 0)
  }

  /** The order of timestamps: by day, then by time of day. */
  predicate Earlier(a: Timestamp, b: Timestamp) {
    a.day < b.day || (a.day == b.day && a.nanos < b.nanos)
  }

  /** `date >= cutoff` where `date` is a midnight timestamp: the cutoff's own
      day passes only when the cutoff itself is exactly midnight. */
  predicate OnOrAfter(date: int, cutoff: Timestamp): (b: bool)
    ensures b <==> !Earlier(Midnight(date), cutoff)
  {
    date > cutoff.day || (date == cutoff.day && cutoff.nanos == 0)
  }

  /** `now - pd.DateOffset(months=months)`: the calendar arithmetic moves the
      day and keeps the time of day; it is supplied by the caller as
      `monthsBefore`. */
  function Cutoff(now: Timestamp, months: nat, monthsBefore: (int, nat) -> int): (r: Timestamp)
    ensures r.nanos == now.nanos
    ensures Earlier(r, now) <==> monthsBefore(now.day, months) < now.day
  {
    Timestamp(monthsBefore(now.day, months), now.nanos)
  }

  /** `pd.date_range(start=first, end=last)`: every day from `first` to
      `last`, both included; empty when `last < first`. */
  function DayRange(first: int, last: int): (r: seq<int>)
    ensures |r| == if last < first then 0 else last - first + 1
    ensures forall k :: 0 <= k < |r| ==> r[k] == first + k
    decreases last - first
  {
    if last < first then [] else [first] + DayRange(first + 1, last)
  }
}
