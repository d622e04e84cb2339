// Shared vocabulary of the attendance backend: optional values, results
// carrying the services' error messages, and the sequence helpers that stand
// for the SQL queries the services issue against their tables.

module Common {

  datatype Option<T> = None | Some(value: T)

  /** The outcome of a service call: a value, or one of the errors the
      services return to their controllers. */
  datatype Result<T> = Ok(value: T) | Err(error: Error)

  /** Every business error the services can return. Storage failures
      (connectivity, constraint violations) are not modelled. */
  datatype Error =
    | AlreadyCheckedIn
    | OutsideRadius
    | NoRecordToday
    | AlreadyCheckedOut
    | OutsideRadiusForCheckOut
    | LocationNotFound
    | LocationInactive
    | UserNotFound
    | EmailAlreadyExists
    | LastAdmin
    | OldPasswordIncorrect
    | InvalidCredentials
    | UserInactive
    | InvalidToken
    | ScheduleNotFound
    | InvalidEffectiveFrom
    | InvalidEffectiveTo
    | QueryFailed

  /** The text each error carries in the source. */
  function Message(e: Error): string
  {
    match e
    case AlreadyCheckedIn => "already checked in today"
    case OutsideRadius => "you are outside the allowed radius"
    case NoRecordToday => "no attendance record found for today"
    case AlreadyCheckedOut => "already checked out today"
    case OutsideRadiusForCheckOut => "you are outside the allowed radius for check-out"
    case LocationNotFound => "location not found"
    case LocationInactive => "location is not active"
    case UserNotFound => "user not found"
    case EmailAlreadyExists => "email already exists"
    case LastAdmin => "cannot delete the last admin user"
    case OldPasswordIncorrect => "old password is incorrect"
    case InvalidCredentials => "invalid email or password"
    case UserInactive => "user account is inactive"
    case InvalidToken => "invalid or expired token" // pkg/jwt's own text is not part of this model
    case ScheduleNotFound => "schedule not found"
    case InvalidEffectiveFrom => "invalid effective_from date format"
    case InvalidEffectiveTo => "invalid effective_to date format"
    case QueryFailed => "query failed"
  }

  /** The elements of `s` that satisfy `p`, in their original order
      (a `WHERE` clause over a table scanned in primary-key order). */
  function Filter<T(!new)>(s: seq<T>, p: T -> bool): (r: seq<T>)
    ensures |r| <= |s|
    ensures forall x :: x in r <==> x in s && p(x)
  {
    if s == [] then []
    else if p(s[0]) then [s[0]] + Filter(s[1..], p)
    else Filter(s[1..], p)
  }

  /** Filtering with a predicate every element satisfies keeps everything. */
  lemma {:induction false} FilterAll<T(!new)>(s: seq<T>, p: T -> bool)
    requires forall x :: x in s ==> p(x)
    ensures Filter(s, p) == s
  {
    if s != [] {
      FilterAll(s[1..], p);
    }
  }

  /** Filtering twice is filtering by the conjunction. */
  lemma {:induction false} FilterFilter<T(!new)>(s: seq<T>, p: T -> bool, q: T -> bool, pq: T -> bool)
    requires forall x :: pq(x) == (p(x) && q(x))
    ensures Filter(Filter(s, p), q) == Filter(s, pq)
  {
    if s != [] {
      FilterFilter(s[1..], p, q, pq);
      if p(s[0]) {
        assert Filter(s, p) == [s[0]] + Filter(s[1..], p);
        assert Filter(s, p)[1..] == Filter(s[1..], p);
      }
    }
  }

  /** Scanning one more row at the end of the table adds it to the result
      exactly when it qualifies, after all earlier ones. */
  lemma {:induction false} FilterAppend<T(!new)>(s: seq<T>, x: T, p: T -> bool)
    ensures Filter(s + [x], p) == Filter(s, p) + (if p(x) then [x] else [])
  {
    if s != [] {
      FilterAppend(s[1..], x, p);
      assert (s + [x])[1..] == s[1..] + [x];
    }
  }

  /** `SELECT COUNT(*) ... WHERE p`. */
  function CountWhere<T(!new)>(s: seq<T>, p: T -> bool): (n: nat)
    ensures n <= |s|
    ensures n == |s| <==> forall x :: x in s ==> p(x)
  {
    if s == [] then 0
    else (if p(s[0]) then 1 else 0) + CountWhere(s[1..], p)
  }

  /** Counting by a predicate and by its negation partitions the table. */
  lemma {:induction false} CountComplement<T(!new)>(s: seq<T>, p: T -> bool, q: T -> bool)
    requires forall x :: q(x) == !p(x)
    ensures CountWhere(s, p) + CountWhere(s, q) == |s|
  {
    if s != [] {
      CountComplement(s[1..], p, q);
    }
  }

  /** Two predicates that never hold together count at most the table. */
  lemma {:induction false} CountDisjoint<T(!new)>(s: seq<T>, p: T -> bool, q: T -> bool)
    requires forall x :: !(p(x) && q(x))
    ensures CountWhere(s, p) + CountWhere(s, q) <= |s|
  {
    if s != [] {
      CountDisjoint(s[1..], p, q);
    }
  }

  /** `s` without its element at position `i` (a row deletion). */
  function RemoveAt<T>(s: seq<T>, i: nat): (r: seq<T>)
    requires i < |s|
    ensures |r| == |s| - 1
    ensures forall j :: 0 <= j < i ==> r[j] == s[j]
    ensures forall j :: i <= j < |r| ==> r[j] == s[j + 1]
  {
    s[..i] + s[i + 1..]
  }

  /** Deleting one row lowers a count by exactly the row's own contribution. */
  lemma {:induction false} CountRemoveAt<T(!new)>(s: seq<T>, i: nat, p: T -> bool)
    requires i < |s|
    ensures CountWhere(RemoveAt(s, i), p) == CountWhere(s, p) - (if p(s[i]) then 1 else 0)
  {
    if i > 0 {
      CountRemoveAt(s[1..], i - 1, p);
      assert RemoveAt(s, i) == [s[0]] + RemoveAt(s[1..], i - 1);
    } else {
      assert RemoveAt(s, i) == s[1..];
    }
  }

  /** Appending one row raises a count by exactly the row's own contribution. */
  lemma {:induction false} CountAppend<T(!new)>(s: seq<T>, x: T, p: T -> bool)
    ensures CountWhere(s + [x], p) == CountWhere(s, p) + (if p(x) then 1 else 0)
  {
    if s != [] {
      CountAppend(s[1..], x, p);
      assert (s + [x])[1..] == s[1..] + [x];
    }
  }

  /** The position of the first row whose key is `k` (`First` on a table
      ordered by primary key), if any. */
  function IndexOfKey<T, K(==)>(s: seq<T>, key: T -> K, k: K): (r: Option<nat>)
    ensures r.Some? ==> r.value < |s| && key(s[r.value]) == k
    ensures r.Some? ==> forall j :: 0 <= j < r.value ==> key(s[j]) != k
    ensures r.None? <==> forall j :: 0 <= j < |s| ==> key(s[j]) != k
  {
    if s == [] then None
    else if key(s[0]) == k then Some(0)
    else match IndexOfKey(s[1..], key, k)
      case None => None
      case Some(i) => Some(i + 1)
  }

  /** Keys are pairwise distinct (a unique index on the column). */
  ghost predicate UniqueKeys<T, K>(s: seq<T>, key: T -> K)
  {
    forall i, j :: 0 <= i < j < |s| ==> key(s[i]) != key(s[j])
  }

  /** Under a unique index, the row found by key is the only row with that key. */
  lemma UniqueKeyFound<T, K>(s: seq<T>, key: T -> K, k: K, j: nat)
    requires UniqueKeys(s, key)
    requires j < |s| && key(s[j]) == k
    ensures IndexOfKey(s, key, k) == Some(j)
  {
  }

  /** Appending a row whose key is new keeps the index unique. */
  lemma AppendUniqueKey<T, K>(s: seq<T>, key: T -> K, x: T)
    requires UniqueKeys(s, key)
    requires forall j :: 0 <= j < |s| ==> key(s[j]) != key(x)
    ensures UniqueKeys(s + [x], key)
  {
  }

  /** Rewriting a row without touching its key keeps the index unique and
      the row where lookups find it. */
  lemma ReplaceUniqueKey<T, K>(s: seq<T>, key: T -> K, i: nat, x: T)
    requires UniqueKeys(s, key)
    requires i < |s| && key(x) == key(s[i])
    ensures UniqueKeys(s[i := x], key)
    ensures IndexOfKey(s[i := x], key, key(x)) == Some(i)
  {
    var t := s[i := x];
    forall a, b | 0 <= a < b < |t| ensures key(t[a]) != key(t[b]) {
      assert key(t[a]) == key(s[a]) && key(t[b]) == key(s[b]);
    }
    UniqueKeyFound(t, key, key(x), i);
  }
}
