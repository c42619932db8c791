/** Shared vocabulary: optional values, calendar days over millisecond
    timestamps, and the `filter(...)` / `filter(...).length` idiom the
    application uses everywhere. */
module Common {

  datatype Option<+T> = None | Some(value: T) {
    /** The value, or `default` when there is none (`x ?? default`). */
    function GetOr(default: T): T {
      match this
      case Some(v) => v
      case None => default
    }
  }

  /** `s.includes(sub)`: `sub` occurs in `s` at some position. */
  predicate Includes(s: string, sub: string)
    decreases |s|
  {
    if sub <= s then true
    else if s == [] then false
    else Includes(s[1..], sub)
  }

  /** JavaScript truthiness of a `string | null` value. */
  predicate Truthy(v: Option<string>) {
    v.Some? && v.value != ""
  }

  /** Milliseconds in one day (the constant 86400000 of the source). */
  const MsPerDay: int := 86400000

  /** The calendar day a timestamp (milliseconds since the epoch) falls on,
      as a day number: the `YYYY-MM-DD` part of `toISOString()`. */
  function DayOf(ts: int): int {
    ts / MsPerDay
  }

  /** The first millisecond of day `d` (what `new Date('YYYY-MM-DD')` gives). */
  function DayStart(d: int): int {
    d * MsPerDay
  }

  lemma DivUnique(a: int, q: int, r: int)
    requires a == q * MsPerDay + r && 0 <= r < MsPerDay
    ensures a / MsPerDay == q
  {
  }

  /** A day number and a timestamp agree: `ts` lies within day `DayOf(ts)`. */
  lemma {:induction false} DayOfBounds(ts: int)
    ensures DayStart(DayOf(ts)) <= ts < DayStart(DayOf(ts)) + MsPerDay
  {
  }

  /** Moving a timestamp by whole days moves its day by the same amount. */
  lemma {:induction false} DayOfShift(ts: int, k: int)
    ensures DayOf(ts + k * MsPerDay) == DayOf(ts) + k
  {
    var q, r := ts / MsPerDay, ts % MsPerDay;
    assert ts == q * MsPerDay + r;
    assert ts + k * MsPerDay == (q + k) * MsPerDay + r;
    DivUnique(ts + k * MsPerDay, q + k, r);
  }

  /** Timestamps in order fall on days in order. */
  lemma {:induction false} DayOfMonotone(a: int, b: int)
    requires a <= b
    ensures DayOf(a) <= DayOf(b)
  {
    DayOfBounds(a);
    DayOfBounds(b);
    assert DayOf(a) * MsPerDay < (DayOf(b) + 1) * MsPerDay;
  }

  /** A timestamp falls on day `d` exactly when it lies between the first
      millisecond of `d` and that of the next day. */
  lemma DayOfWithin(ts: int, d: int)
    ensures DayOf(ts) == d <==> DayStart(d) <= ts < DayStart(d) + MsPerDay
  {
    DayOfBounds(ts);
    if DayStart(d) <= ts < DayStart(d) + MsPerDay {
      DivUnique(ts, d, ts - d * MsPerDay);
    }
  }

  /** The day of `DayStart(d)` is `d`. */
  lemma {:induction false} DayOfDayStart(d: int)
    ensures DayOf(DayStart(d)) == d
  {
    DivUnique(d * MsPerDay, d, 0);
  }

  /** `s.findIndex(y => y === x)`: the first position of `x`, or -1. */
  function IndexOf<T(==)>(s: seq<T>, x: T): (i: int)
    ensures -1 <= i < |s|
    ensures i == -1 <==> x !in s
    ensures 0 <= i ==> s[i] == x && x !in s[..i]
    decreases |s|
  {
    if s == [] then -1
    else if s[0] == x then 0
    else
      var j := IndexOf(s[1..], x);
      assert 0 <= j ==> s[..j + 1] == [s[0]] + s[1..][..j];
      if j == -1 then -1 else j + 1
  }

  /** `s.filter(p)`: the elements satisfying `p`, in their original order. */
  function Filter<T(==)>(s: seq<T>, p: T -> bool): (r: seq<T>)
    ensures |r| <= |s|
    ensures forall i :: 0 <= i < |r| ==> p(r[i]) && r[i] in s
    ensures forall i :: 0 <= i < |s| && p(s[i]) ==> s[i] in r
    ensures multiset(r) <= multiset(s)
    decreases |s|
  {
    if s == [] then []
    else
      assert s == [s[0]] + s[1..];
      if p(s[0]) then [s[0]] + Filter(s[1..], p)
      else Filter(s[1..], p)
  }

  /** `s.filter(p).length`. */
  function Count<T(==)>(s: seq<T>, p: T -> bool): (n: nat)
    ensures n <= |s|
  {
    |Filter(s, p)|
  }

  lemma {:induction false} FilterAppend<T>(a: seq<T>, b: seq<T>, p: T -> bool)
    ensures Filter(a + b, p) == Filter(a, p) + Filter(b, p)
    decreases |a|
  {
    if a == [] {
      assert a + b == b;
    } else {
      assert (a + b)[1..] == a[1..] + b;
      FilterAppend(a[1..], b, p);
    }
  }

  /** Filtering with a predicate every element meets keeps everything. */
  lemma {:induction false} FilterAll<T>(s: seq<T>, p: T -> bool)
    requires forall i :: 0 <= i < |s| ==> p(s[i])
    ensures Filter(s, p) == s
    decreases |s|
  {
    if s != [] {
      FilterAll(s[1..], p);
    }
  }

  /** `a` can be obtained from `b` by deleting elements (relative order kept). */
  predicate IsSubsequence<T(==)>(a: seq<T>, b: seq<T>)
    decreases |b|
  {
    if a == [] then true
    else if b == [] then false
    else if a[0] == b[0] then IsSubsequence(a[1..], b[1..])
    else IsSubsequence(a, b[1..])
  }

  lemma {:induction false} SubsequenceOfRest<T>(a: seq<T>, b: seq<T>)
    requires b != [] && IsSubsequence(a, b[1..])
    ensures IsSubsequence(a, b)
    decreases |b|, 0
  {
    if a != [] && a[0] == b[0] {
      // a[1..] is a subsequence of b[1..] because a is.
      SubsequenceDropHead(a, b[1..]);
    }
  }

  lemma {:induction false} SubsequenceDropHead<T>(a: seq<T>, b: seq<T>)
    requires a != [] && IsSubsequence(a, b)
    ensures IsSubsequence(a[1..], b)
    decreases |b|, 1
  {
    assert b != [];
    if a[0] == b[0] {
      if a[1..] != [] {
        SubsequenceDropHead(a[1..], b[1..]);
        SubsequenceOfRest(a[1..], b);
      }
    } else {
      SubsequenceDropHead(a, b[1..]);
      if a[1..] != [] {
        SubsequenceOfRest(a[1..], b);
      }
    }
  }

  /** Filtering keeps the relative order of what it keeps. */
  lemma {:induction false} FilterIsSubsequence<T>(s: seq<T>, p: T -> bool)
    ensures IsSubsequence(Filter(s, p), s)
    decreases |s|
  {
    if s != [] {
      FilterIsSubsequence(s[1..], p);
      if !p(s[0]) {
        SubsequenceOfRest(Filter(s, p), s);
      }
    }
  }

  lemma {:induction false} SubsequenceTransitive<T>(a: seq<T>, b: seq<T>, c: seq<T>)
    requires IsSubsequence(a, b) && IsSubsequence(b, c)
    ensures IsSubsequence(a, c)
    decreases |c|
  {
    if a != [] {
      assert b != [] && c != [];
      if b[0] == c[0] {
        if a[0] == b[0] {
          SubsequenceTransitive(a[1..], b[1..], c[1..]);
        } else {
          SubsequenceTransitive(a, b[1..], c[1..]);
          SubsequenceOfRest(a, c);
        }
      } else {
        SubsequenceTransitive(a, b, c[1..]);
        SubsequenceOfRest(a, c);
      }
    }
  }

  /** `Math.round((a / b) * 100)` for `0 <= a` and `0 < b`, in exact
      arithmetic: the integer nearest to `100a/b`, halves rounded up. */
  function RoundPercent(a: nat, b: nat): (r: nat)
    requires b > 0
    ensures 2 * b * r - b <= 200 * a < 2 * b * r + b
    ensures a <= b ==> r <= 100
    ensures a >= b ==> r >= 100
    ensures a == b ==> r == 100
    ensures a == 0 ==> r == 0
  {
    RoundPercentFacts(a, b);
    (200 * a + b) / (2 * b)
  }

  lemma RoundPercentFacts(a: nat, b: nat)
    requires b > 0
    ensures var r := (200 * a + b) / (2 * b);
            && 2 * b * r - b <= 200 * a < 2 * b * r + b
            && (a <= b ==> r <= 100)
            && (a >= b ==> r >= 100)
            && (a == b ==> r == 100)
            && (a == 0 ==> r == 0)
  {
    var n, d := 200 * a + b, 2 * b;
    var r := n / d;
    assert n == d * r + n % d;
    if a <= b {
      assert n < d * 101;
      QuotientBelow(n, d, 101);
    }
    if a >= b {
      assert d * 100 <= n;
      QuotientAtLeast(n, d, 100);
    }
    if a == 0 {
      assert n < d * 1;
      QuotientBelow(n, d, 1);
    }
  }

  lemma QuotientBelow(n: nat, d: nat, k: nat)
    requires d > 0 && n < d * k
    ensures n / d < k
  {
    var r := n / d;
    assert d * r <= n;
  }

  lemma QuotientAtLeast(n: nat, d: nat, k: nat)
    requires d > 0 && d * k <= n
    ensures k <= n / d
  {
    var r := n / d;
    assert n < d * (r + 1);
  }

  /** Counting is additive over a predicate split into two disjoint parts. */
  lemma {:induction false} CountSplit<T>(s: seq<T>, p: T -> bool, q: T -> bool, r: T -> bool)
    requires forall i :: 0 <= i < |s| ==> (r(s[i]) <==> p(s[i]) || q(s[i])) && !(p(s[i]) && q(s[i]))
    ensures Count(s, r) == Count(s, p) + Count(s, q)
    decreases |s|
  {
    if s != [] {
      CountSplit(s[1..], p, q, r);
    }
  }

  /** `whole > 0 ? Math.round((part / whole) * 100) : 0`: a percentage. */
  function Rate(part: nat, whole: nat): (r: nat)
    ensures whole == 0 ==> r == 0
    ensures whole > 0 ==> 2 * whole * r - whole <= 200 * part < 2 * whole * r + whole
    ensures part <= whole ==> r <= 100
    ensures 0 < part == whole ==> r == 100
  {
    if whole > 0 then RoundPercent(part, whole) else 0
  }

  /** Counting with a weaker predicate counts at least as many. */
  lemma {:induction false} CountMonotone<T>(s: seq<T>, p: T -> bool, q: T -> bool)
    requires forall i :: 0 <= i < |s| ==> p(s[i]) ==> q(s[i])
    ensures Count(s, p) <= Count(s, q)
    decreases |s|
  {
    if s != [] {
      CountMonotone(s[1..], p, q);
    }
  }

  /** Membership in a filtered sequence. */
  lemma FilterMembership<T>(s: seq<T>, p: T -> bool, x: T)
    ensures x in Filter(s, p) <==> x in s && p(x)
  {
    if x in s && p(x) {
      var i :| 0 <= i < |s| && s[i] == x;
    }
  }

  /** Filtering twice is filtering once by the conjunction. */
  lemma {:induction false} FilterFilter<T>(s: seq<T>, p: T -> bool, q: T -> bool, r: T -> bool)
    requires forall i :: 0 <= i < |s| ==> (r(s[i]) <==> p(s[i]) && q(s[i]))
    ensures Filter(Filter(s, p), q) == Filter(s, r)
    decreases |s|
  {
    if s != [] {
      FilterFilter(s[1..], p, q, r);
    }
  }

  /** Predicates that agree on the elements filter alike. */
  lemma {:induction false} FilterSame<T>(s: seq<T>, p: T -> bool, q: T -> bool)
    requires forall i :: 0 <= i < |s| ==> (p(s[i]) <==> q(s[i]))
    ensures Filter(s, p) == Filter(s, q)
    decreases |s|
  {
    if s != [] {
      FilterSame(s[1..], p, q);
    }
  }
}
