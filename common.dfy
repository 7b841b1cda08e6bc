/** Small shared vocabulary: optional values, exact fractions in place of
    JavaScript floating-point numbers, counting and filtering, and the few
    string operations the application uses (number formatting, joining,
    splitting, substring search, trimming, lower-casing). */
module Common {

  datatype Option<T> = None | Some(value: T)

  /** The outcome of an operation that throws: a value, or the error's message. */
  datatype Result<T> = Ok(value: T) | Err(message: string)

  /** The difficulty levels of the duration goals and the challenges. */
  datatype Difficulty = Beginner | Intermediate | Advanced | Expert

  /** The two optional flags of a tracked day. */
  datatype Flag = ExtraCold | FeltAmazing

  /** A fraction num/den. JavaScript computes percentages and averages as
      floating-point numbers; the model keeps them exact. */
  datatype Fraction = Fraction(num: int, den: int)

  /** A fraction with a positive denominator. */
  type Ratio = f: Fraction | f.den > 0 witness Fraction(0, 1)

  const Zero: Ratio := Fraction(0, 1)

  /** part/whole*100, or 0 when whole is 0 (the `whole > 0 ? … : 0` guard
      that recurs throughout the application). */
  function Percent(part: int, whole: int): (r: Ratio)
    ensures whole > 0 ==> r.num * whole == 100 * part * r.den
    ensures whole <= 0 ==> r.num == 0
  {
    if whole > 0 then Fraction(100 * part, whole) else Zero
  }

  /** Math.min(x, 100) for a fraction. */
  function CapAt100(r: Ratio): (c: Ratio)
    ensures AtMost(c, 100)
    ensures AtMost(r, 100) ==> c == r
  {
    if r.num <= 100 * r.den then r else Fraction(100, 1)
  }

  /** r is part/whole*100 while part is at most whole, and 100 above it. */
  predicate CappedPercent(r: Ratio, part: int, whole: int)
    requires whole > 0
  {
    (part <= whole ==> r.num * whole == 100 * part * r.den) &&
    (part > whole ==> r.num == 100 * r.den)
  }

  /** Math.min(part / whole * 100, 100). */
  function CappedShare(part: int, whole: int): (r: Ratio)
    requires whole > 0
    ensures CappedPercent(r, part, whole)
    ensures AtMost(r, 100)
    ensures part >= 0 ==> AtLeast(r, 0)
  {
    CapAt100(Fraction(100 * part, whole))
  }

  predicate AtLeast(r: Ratio, k: int) { r.num >= k * r.den }
  predicate AtMost(r: Ratio, k: int) { r.num <= k * r.den }
  predicate Below(r: Ratio, k: int) { r.num < k * r.den }
  predicate Above(r: Ratio, k: int) { r.num > k * r.den }

  /** Math.round of a fraction: the nearest integer, halves rounded up. */
  function Round(r: Ratio): (n: int)
    ensures 2 * n * r.den <= 2 * r.num + r.den < 2 * (n + 1) * r.den
  {
    var n := (2 * r.num + r.den) / (2 * r.den);
    assert (2 * r.num + r.den) % (2 * r.den) < 2 * r.den;
    n
  }

  /** Concatenation is associative; stated once so that proofs can name
      the regrouping they need. */
  lemma Assoc<T>(a: seq<T>, b: seq<T>, c: seq<T>)
    ensures a + b + c == a + (b + c)
  {
  }

  // ---------------------------------------------------------------------
  // Counting, filtering, summing

  function Count<T>(s: seq<T>, p: T -> bool): (n: nat)
    ensures n <= |s|
  {
    if s == [] then 0 else (if p(s[0]) then 1 else 0) + Count(s[1..], p)
  }

  function Filter<T>(s: seq<T>, p: T -> bool): (r: seq<T>)
    ensures |r| == Count(s, p)
    ensures forall x :: x in r ==> x in s && p(x)
    ensures forall x :: x in s && p(x) ==> x in r
  {
    if s == [] then [] else (if p(s[0]) then [s[0]] else []) + Filter(s[1..], p)
  }

  lemma {:induction false} FilterAppend<T>(a: seq<T>, b: seq<T>, p: T -> bool)
    ensures Filter(a + b, p) == Filter(a, p) + Filter(b, p)
  {
    if a == [] {
      assert a + b == b;
    } else {
      assert (a + b)[1..] == a[1..] + b;
      FilterAppend(a[1..], b, p);
    }
  }

  /** Two positions of the filtered list come from two positions of the
      original list, in the same order. */
  lemma {:induction false} FilterPositions<T>(s: seq<T>, p: T -> bool, i: int, j: int)
    requires 0 <= i < j < |Filter(s, p)|
    ensures exists a, b :: 0 <= a < b < |s| && s[a] == Filter(s, p)[i] && s[b] == Filter(s, p)[j]
  {
    var f := Filter(s, p);
    var tail := Filter(s[1..], p);
    if p(s[0]) {
      assert f == [s[0]] + tail;
      if i == 0 {
        assert f[j] == tail[j - 1] && f[0] == s[0];
        LaterPosition(s, p, tail[j - 1]);
      } else {
        FilterPositions(s[1..], p, i - 1, j - 1);
        LiftPair(s, tail[i - 1], tail[j - 1]);
      }
    } else {
      assert f == tail;
      FilterPositions(s[1..], p, i, j);
      LiftPair(s, tail[i], tail[j]);
    }
  }

  /** An element kept from the tail sits after the first position. */
  lemma LaterPosition<T>(s: seq<T>, p: T -> bool, y: T)
    requires s != [] && y in Filter(s[1..], p)
    ensures exists a, b :: 0 <= a < b < |s| && s[a] == s[0] && s[b] == y
  {
    assert y in s[1..];
    var b :| 0 <= b < |s[1..]| && s[1..][b] == y;
    assert s[b + 1] == y;
    assert 0 <= 0 < b + 1 < |s| && s[0] == s[0] && s[b + 1] == y;
  }

  /** Two ordered positions in the tail are two ordered positions in the
      whole list. */
  lemma LiftPair<T>(s: seq<T>, x: T, y: T)
    requires s != []
    requires exists a, b :: 0 <= a < b < |s[1..]| && s[1..][a] == x && s[1..][b] == y
    ensures exists a, b :: 0 <= a < b < |s| && s[a] == x && s[b] == y
  {
    var a, b :| 0 <= a < b < |s[1..]| && s[1..][a] == x && s[1..][b] == y;
    assert s[a + 1] == x && s[b + 1] == y;
  }

  lemma {:induction false} CountAppend<T>(a: seq<T>, b: seq<T>, p: T -> bool)
    ensures Count(a + b, p) == Count(a, p) + Count(b, p)
  {
    FilterAppend(a, b, p);
  }

  /** Counting the first i+1 elements adds the i-th one to the count of the
      first i; this is how a counting loop's invariant advances. */
  lemma CountPrefix<T>(s: seq<T>, i: int, p: T -> bool)
    requires 0 <= i < |s|
    ensures Count(s[..i + 1], p) == Count(s[..i], p) + (if p(s[i]) then 1 else 0)
  {
    assert s[..i + 1] == s[..i] + [s[i]];
    CountAppend(s[..i], [s[i]], p);
  }

  /** `obj[key] || 0`: the tally kept under a key, 0 when it is missing. */
  function Tally<K>(mp: map<K, int>, key: K): int {
    if key in mp then mp[key] else 0
  }

  /** One step of a loop that tallies records per key: when record i is a
      hit for key k (and for no other key), adding one under k keeps every
      key's tally the count of the records read so far. */
  lemma TallyStep<K, T>(s: seq<T>, i: int, mp: map<K, int>, inKey: K -> (T -> bool), k: K, hit: bool)
    requires 0 <= i < |s|
    requires forall m :: Tally(mp, m) == Count(s[..i], inKey(m))
    requires forall m :: inKey(m)(s[i]) <==> hit && m == k
    ensures forall m :: Tally(if hit then mp[k := Tally(mp, k) + 1] else mp, m) == Count(s[..i + 1], inKey(m))
  {
    forall m ensures Tally(if hit then mp[k := Tally(mp, k) + 1] else mp, m) == Count(s[..i + 1], inKey(m)) {
      CountPrefix(s, i, inKey(m));
    }
  }

  /** Counting under a predicate that is the disjoint union of two others
      adds their counts. */
  lemma {:induction false} CountDisjointUnion<T>(s: seq<T>, p: T -> bool, q: T -> bool, r: T -> bool)
    requires forall x :: x in s ==> (r(x) <==> p(x) || q(x)) && !(p(x) && q(x))
    ensures Count(s, r) == Count(s, p) + Count(s, q)
  {
    if s != [] {
      assert forall x :: x in s[1..] ==> x in s;
      CountDisjointUnion(s[1..], p, q, r);
    }
  }

  /** Counting under equivalent predicates gives the same number. */
  lemma {:induction false} CountSame<T>(s: seq<T>, p: T -> bool, q: T -> bool)
    requires forall x :: x in s ==> (p(x) <==> q(x))
    ensures Count(s, p) == Count(s, q)
  {
    if s != [] {
      assert forall x :: x in s[1..] ==> x in s;
      CountSame(s[1..], p, q);
    }
  }

  /** A count under a stronger predicate never exceeds the count under a
      weaker one. */
  lemma {:induction false} CountMono<T>(s: seq<T>, p: T -> bool, q: T -> bool)
    requires forall x :: x in s && p(x) ==> q(x)
    ensures Count(s, p) <= Count(s, q)
  {
    if s != [] {
      assert forall x :: x in s[1..] ==> x in s;
      CountMono(s[1..], p, q);
    }
  }

  /** Counting, after filtering by q, a predicate that implies q counts the
      same as counting it in the whole sequence. */
  lemma {:induction false} CountFiltered<T>(s: seq<T>, q: T -> bool, p: T -> bool)
    requires forall x :: x in s && p(x) ==> q(x)
    ensures Count(Filter(s, q), p) == Count(s, p)
  {
    if s != [] {
      assert forall x :: x in s[1..] ==> x in s;
      CountFiltered(s[1..], q, p);
      CountAppend(if q(s[0]) then [s[0]] else [], Filter(s[1..], q), p);
    }
  }

  /** Filtering twice with the same predicate changes nothing. */
  lemma {:induction false} FilterIdempotent<T>(s: seq<T>, p: T -> bool)
    ensures Filter(Filter(s, p), p) == Filter(s, p)
  {
    if s != [] {
      FilterIdempotent(s[1..], p);
      FilterAppend(if p(s[0]) then [s[0]] else [], Filter(s[1..], p), p);
    }
  }

  function KeyIs<T>(key: T -> int, v: int): T -> bool {
    (x: T) => key(x) == v
  }

  function KeyIsNot<T>(key: T -> int, v: int): T -> bool {
    (x: T) => key(x) != v
  }

  /** `s.filter(y => key(y) !== key(x))` followed by `push(x)`: the update
      that replaces every element with x's key by x. */
  function ReplaceKeyed<T>(s: seq<T>, key: T -> int, x: T): (r: seq<T>)
    ensures |r| >= 1 && r[|r| - 1] == x
  {
    Filter(s, KeyIsNot(key, key(x))) + [x]
  }

  /** After the replacement x is the one element with its key, and the
      elements with other keys are exactly those of s, in the same order. */
  lemma ReplaceKeyedFacts<T>(s: seq<T>, key: T -> int, x: T)
    ensures Count(ReplaceKeyed(s, key, x), KeyIs(key, key(x))) == 1
    ensures Filter(ReplaceKeyed(s, key, x), KeyIsNot(key, key(x))) == Filter(s, KeyIsNot(key, key(x)))
    ensures forall w :: w != key(x) ==> Count(ReplaceKeyed(s, key, x), KeyIs(key, w)) == Count(s, KeyIs(key, w))
  {
    var v := key(x);
    var f := Filter(s, KeyIsNot(key, v));
    CountAppend(f, [x], KeyIs(key, v));
    CountNone(f, KeyIs(key, v));
    FilterAppend(f, [x], KeyIsNot(key, v));
    FilterIdempotent(s, KeyIsNot(key, v));
    forall w | w != v ensures Count(ReplaceKeyed(s, key, x), KeyIs(key, w)) == Count(s, KeyIs(key, w)) {
      CountAppend(f, [x], KeyIs(key, w));
      CountFiltered(s, KeyIsNot(key, v), KeyIs(key, w));
    }
  }

  /** Array.prototype.findIndex: the first position satisfying p, or -1. */
  function FindIndex<T>(s: seq<T>, p: T -> bool): (i: int)
    ensures -1 <= i < |s|
    ensures i >= 0 ==> p(s[i]) && forall j :: 0 <= j < i ==> !p(s[j])
    ensures i < 0 ==> forall j :: 0 <= j < |s| ==> !p(s[j])
  {
    if s == [] then -1
    else if p(s[0]) then 0
    else
      var k := FindIndex(s[1..], p);
      if k < 0 then -1 else k + 1
  }

  /** `s.map(f)`. */
  function MapSeq<T, U>(s: seq<T>, f: T -> U): (r: seq<U>)
    ensures |r| == |s|
    ensures forall i :: 0 <= i < |s| ==> r[i] == f(s[i])
  {
    if s == [] then [] else [f(s[0])] + MapSeq(s[1..], f)
  }

  function Sum(s: seq<int>): int {
    if s == [] then 0 else s[0] + Sum(s[1..])
  }

  lemma {:induction false} SumAppend(a: seq<int>, b: seq<int>)
    ensures Sum(a + b) == Sum(a) + Sum(b)
  {
    if a == [] {
      assert a + b == b;
    } else {
      assert (a + b)[1..] == a[1..] + b;
      SumAppend(a[1..], b);
    }
  }

  lemma SumPrefix(s: seq<int>, i: int)
    requires 0 <= i < |s|
    ensures Sum(s[..i + 1]) == Sum(s[..i]) + s[i]
  {
    assert s[..i + 1] == s[..i] + [s[i]];
    SumAppend(s[..i], [s[i]]);
  }

  /** `values.reduce(+, 0) / values.length`, with 0 for no values (where
      the division gives NaN and the application's `|| 0` or explicit guard
      gives 0). */
  function Mean(values: seq<int>): (r: Ratio)
    ensures |values| == 0 ==> r.num == 0
    ensures |values| > 0 ==> r.num * |values| == Sum(values) * r.den
  {
    if |values| == 0 then Zero else Fraction(Sum(values), |values|)
  }

  /** Elements within [lo, hi] sum to within |s| times those bounds. */
  lemma {:induction false} SumBounds(s: seq<int>, lo: int, hi: int)
    requires forall i :: 0 <= i < |s| ==> lo <= s[i] <= hi
    ensures lo * |s| <= Sum(s) <= hi * |s|
  {
    if s != [] {
      assert forall i :: 0 <= i < |s| - 1 ==> s[1..][i] == s[i + 1];
      SumBounds(s[1..], lo, hi);
    }
  }

  /** Non-negative terms: the sum is non-negative and at least each term. */
  lemma {:induction false} SumCoversEach(s: seq<int>)
    requires forall i :: 0 <= i < |s| ==> s[i] >= 0
    ensures Sum(s) >= 0
    ensures forall i :: 0 <= i < |s| ==> s[i] <= Sum(s)
  {
    if s != [] {
      assert forall i :: 0 <= i < |s| - 1 ==> s[1..][i] == s[i + 1];
      SumCoversEach(s[1..]);
    }
  }

  /** The mean of values within [lo, hi] lies within [lo, hi]. */
  lemma MeanBounds(values: seq<int>, lo: int, hi: int)
    requires |values| > 0
    requires forall i :: 0 <= i < |values| ==> lo <= values[i] <= hi
    ensures AtLeast(Mean(values), lo) && AtMost(Mean(values), hi)
  {
    SumBounds(values, lo, hi);
  }

  /** Raising one element by d raises the sum by d. */
  lemma {:induction false} SumUpdate(s: seq<int>, i: int, d: int)
    requires 0 <= i < |s|
    ensures Sum(s[i := s[i] + d]) == Sum(s) + d
  {
    if i > 0 {
      assert s[i := s[i] + d][1..] == s[1..][i - 1 := s[1..][i - 1] + d];
      SumUpdate(s[1..], i - 1, d);
    }
  }

  /** The count is positive exactly when some element satisfies p. */
  lemma {:induction false} CountPositive<T>(s: seq<T>, p: T -> bool)
    ensures Count(s, p) > 0 <==> exists x :: x in s && p(x)
  {
    if s != [] {
      CountPositive(s[1..], p);
      assert forall x :: x in s[1..] ==> x in s;
      assert forall x :: x in s ==> x == s[0] || x in s[1..];
    }
  }

  /** A predicate that holds everywhere counts every element. */
  lemma {:induction false} CountAll<T>(s: seq<T>, p: T -> bool)
    requires forall i :: 0 <= i < |s| ==> p(s[i])
    ensures Count(s, p) == |s|
  {
    if s != [] {
      assert forall i :: 0 <= i < |s| - 1 ==> s[1..][i] == s[i + 1];
      CountAll(s[1..], p);
    }
  }

  /** When every element from m on satisfies p, they all count. */
  lemma CountSuffixAll<T>(s: seq<T>, m: int, p: T -> bool)
    requires 0 <= m <= |s|
    requires forall i :: m <= i < |s| ==> p(s[i])
    ensures Count(s, p) == Count(s[..m], p) + (|s| - m)
  {
    var a, b := s[..m], s[m..];
    assert s == a + b;
    CountAppend(a, b, p);
    assert forall i :: 0 <= i < |b| ==> b[i] == s[m + i];
    CountAll(b, p);
  }

  /** Replacing one element changes the count by what the old and the new
      element contribute. */
  lemma {:induction false} CountUpdate<T>(s: seq<T>, i: int, v: T, p: T -> bool)
    requires 0 <= i < |s|
    ensures Count(s[i := v], p) == Count(s, p) - (if p(s[i]) then 1 else 0) + (if p(v) then 1 else 0)
  {
    if i > 0 {
      assert s[i := v][1..] == s[1..][i - 1 := v];
      CountUpdate(s[1..], i - 1, v, p);
    } else {
      assert s[i := v][1..] == s[1..];
    }
  }

  /** A predicate that holds nowhere counts 0. */
  lemma {:induction false} CountNone<T>(s: seq<T>, p: T -> bool)
    requires forall x :: x in s ==> !p(x)
    ensures Count(s, p) == 0
  {
    if s != [] {
      assert forall x :: x in s[1..] ==> x in s;
      CountNone(s[1..], p);
    }
  }

  // ---------------------------------------------------------------------
  // Strings

  predicate IsDigit(c: char) { '0' <= c <= '9' }

  function DigitChar(d: nat): (c: char)
    requires d < 10
    ensures IsDigit(c)
  {
    ['0', '1', '2', '3', '4', '5', '6', '7', '8', '9'][d]
  }

  /** The decimal text of a natural number, as `${n}` prints it. */
  function NatToString(n: nat): (s: string)
    ensures |s| >= 1
    ensures forall i :: 0 <= i < |s| ==> IsDigit(s[i])
    ensures n < 10 <==> |s| == 1
  {
    if n < 10 then [DigitChar(n)] else NatToString(n / 10) + [DigitChar(n % 10)]
  }

  function DigitValue(c: char): (d: nat)
    requires IsDigit(c)
    ensures d < 10
  {
    c as int - '0' as int
  }

  lemma DigitRoundTrip(d: nat)
    requires d < 10
    ensures DigitValue(DigitChar(d)) == d
  {
  }

  /** The value of a string of decimal digits. */
  function ParseDigits(s: string): nat
    requires forall i :: 0 <= i < |s| ==> IsDigit(s[i])
  {
    if s == [] then 0 else 10 * ParseDigits(s[..|s| - 1]) + DigitValue(s[|s| - 1])
  }

  /** Reading back the decimal text of n gives n. */
  lemma {:induction false} ParseNatToString(n: nat)
    ensures ParseDigits(NatToString(n)) == n
  {
    if n < 10 {
      DigitRoundTrip(n);
    } else {
      var s := NatToString(n);
      assert s[..|s| - 1] == NatToString(n / 10);
      ParseNatToString(n / 10);
      DigitRoundTrip(n % 10);
    }
  }

  /** The decimal text of an integer, with a leading '-' when negative. */
  function IntToString(n: int): (s: string)
    ensures |s| >= 1
    ensures n >= 0 ==> s == NatToString(n)
    ensures n < 0 ==> s == "-" + NatToString(-n)
  {
    if n >= 0 then NatToString(n) else "-" + NatToString(-n)
  }

  /** String.prototype.padStart(2, '0') applied to a digit string. */
  function PadTwo(s: string): (r: string)
    ensures |s| >= 2 ==> r == s
    ensures |s| < 2 ==> r == seq(2 - |s|, _ => '0') + s
  {
    if |s| >= 2 then s else seq(2 - |s|, _ => '0') + s
  }

  /** Array.prototype.join(sep). */
  function Join(parts: seq<string>, sep: string): string {
    if parts == [] then ""
    else if |parts| == 1 then parts[0]
    else parts[0] + sep + Join(parts[1..], sep)
  }

  /** Joining a first part before the rest: the first part, then the
      separator and the rest's join when there is a rest. */
  lemma JoinFirst(first: string, rest: seq<string>, sep: string)
    ensures Join([first] + rest, sep) == if rest == [] then first else first + sep + Join(rest, sep)
    ensures |Join([first] + rest, sep)| >= |first| && Join([first] + rest, sep)[..|first|] == first
  {
    assert ([first] + rest)[1..] == rest;
  }

  /** A character in neither the parts nor the separator is not in the
      joined string. */
  lemma {:induction false} JoinAvoids(parts: seq<string>, sep: string, c: char)
    requires c !in sep
    requires forall i :: 0 <= i < |parts| ==> c !in parts[i]
    ensures c !in Join(parts, sep)
  {
    if |parts| > 1 {
      JoinAvoids(parts[1..], sep, c);
    }
  }

  function CountChar(s: string, c: char): nat {
    if s == [] then 0 else (if s[0] == c then 1 else 0) + CountChar(s[1..], c)
  }

  lemma {:induction false} CountCharAppend(a: string, b: string, c: char)
    ensures CountChar(a + b, c) == CountChar(a, c) + CountChar(b, c)
  {
    if a == [] {
      assert a + b == b;
    } else {
      assert (a + b)[1..] == a[1..] + b;
      CountCharAppend(a[1..], b, c);
    }
  }

  /** Joining k parts with a one-character separator that none of them
      contains puts exactly k-1 copies of it into the result. */
  lemma {:induction false} JoinCountsSeparators(parts: seq<string>, c: char)
    requires parts != []
    requires forall i :: 0 <= i < |parts| ==> CountChar(parts[i], c) == 0
    ensures CountChar(Join(parts, [c]), c) == |parts| - 1
  {
    if |parts| > 1 {
      JoinCountsSeparators(parts[1..], c);
      CountCharAppend(parts[0] + [c], Join(parts[1..], [c]), c);
      CountCharAppend(parts[0], [c], c);
    }
  }

  predicate StartsWith(s: string, prefix: string) {
    |prefix| <= |s| && s[..|prefix|] == prefix
  }

  /** p occurs in s at position i. */
  predicate OccursAt(s: string, p: string, i: int) {
    0 <= i && i + |p| <= |s| && s[i..i + |p|] == p
  }

  lemma OccursShift(s: string, p: string)
    requires s != []
    ensures forall i :: i >= 0 ==> (OccursAt(s, p, i + 1) <==> OccursAt(s[1..], p, i))
  {
    forall i | i >= 0 ensures OccursAt(s, p, i + 1) <==> OccursAt(s[1..], p, i) {
      if 0 <= i && i + 1 + |p| <= |s| {
        var a, b := s[i + 1..i + 1 + |p|], s[1..][i..i + |p|];
        forall k | 0 <= k < |a| ensures a[k] == b[k] {}
        assert a == b;
      }
    }
  }

  /** String.prototype.includes(p). */
  function Contains(s: string, p: string): (b: bool)
    ensures b <==> exists i :: OccursAt(s, p, i)
  {
    if StartsWith(s, p) then
      assert OccursAt(s, p, 0);
      true
    else if s == [] then
      false
    else
      var b := Contains(s[1..], p);
      OccursShift(s, p);
      assert b ==> OccursAt(s, p, 1 + (var j :| OccursAt(s[1..], p, j); j));
      assert (exists i :: OccursAt(s, p, i)) ==> b by {
        if exists i :: OccursAt(s, p, i) {
          var i :| OccursAt(s, p, i);
          assert i != 0;
          assert OccursAt(s[1..], p, i - 1);
        }
      }
      b
  }

  /** String.prototype.split(c) for a one-character separator: the pieces
      between separators, empty pieces included. */
  function Split(s: string, c: char): (parts: seq<string>)
    ensures |parts| >= 1
    ensures |parts| == CountChar(s, c) + 1
    ensures forall i :: 0 <= i < |parts| ==> c !in parts[i]
  {
    if s == [] then [""]
    else
      var rest := Split(s[1..], c);
      if s[0] == c then [""] + rest else [[s[0]] + rest[0]] + rest[1..]
  }

  lemma {:induction false} SplitWithout(a: string, c: char)
    requires c !in a
    ensures Split(a, c) == [a]
  {
    if a != [] {
      assert c !in a[1..] by {
        assert forall x :: x in a[1..] ==> x in a;
      }
      SplitWithout(a[1..], c);
      assert [a[0]] + a[1..] == a;
    }
  }

  lemma {:induction false} SplitConcat(a: string, b: string, c: char)
    requires c !in a
    ensures Split(a + [c] + b, c) == [a] + Split(b, c)
  {
    var s := a + [c] + b;
    if a == [] {
      assert s[1..] == b;
    } else {
      assert s[1..] == a[1..] + [c] + b;
      SplitConcat(a[1..], b, c);
      assert [a[0]] + a[1..] == a;
    }
  }

  /** Splitting at a separator that no part contains gives the parts back:
      join and split are inverse. */
  lemma {:induction false} SplitJoin(parts: seq<string>, c: char)
    requires parts != []
    requires forall i :: 0 <= i < |parts| ==> c !in parts[i]
    ensures Split(Join(parts, [c]), c) == parts
  {
    if |parts| == 1 {
      SplitWithout(parts[0], c);
    } else {
      SplitJoin(parts[1..], c);
      SplitConcat(parts[0], Join(parts[1..], [c]), c);
      assert parts == [parts[0]] + parts[1..];
    }
  }

  /** `m:ss` for a number of seconds: the whole minutes, ':', and the
      remaining seconds padded to two digits. */
  function MinutesSeconds(seconds: nat): (s: string)
    ensures |s| >= 4 && s[|s| - 3] == ':'
    ensures forall i :: 0 <= i < |s| && i != |s| - 3 ==> IsDigit(s[i])
    ensures seconds < 600 ==> |s| == 4
  {
    var secs := NatToString(seconds % 60);
    assert |secs| <= 2 by {
      if seconds % 60 >= 10 {
        assert |NatToString(seconds % 60 / 10)| == 1;
      }
    }
    NatToString(seconds / 60) + ":" + PadTwo(secs)
  }

  /** The text reads back as the number of seconds: two fields around the
      colon, the second of two digits. */
  lemma MinutesSecondsRoundTrip(seconds: nat)
    ensures var parts := Split(MinutesSeconds(seconds), ':');
      |parts| == 2 && |parts[1]| == 2 &&
      (forall i :: 0 <= i < |parts[0]| ==> IsDigit(parts[0][i])) &&
      (forall i :: 0 <= i < |parts[1]| ==> IsDigit(parts[1][i])) &&
      ParseDigits(parts[0]) * 60 + ParseDigits(parts[1]) == seconds
  {
    var mins := NatToString(seconds / 60);
    var secs := PadTwo(NatToString(seconds % 60));
    assert ':' !in mins by {
      assert forall i :: 0 <= i < |mins| ==> IsDigit(mins[i]);
    }
    ParseNatToString(seconds / 60);
    ParseNatToString(seconds % 60);
    var digits := NatToString(seconds % 60);
    if |digits| < 2 {
      assert secs == ['0', digits[0]];
      assert secs[..1] == ['0'];
    }
    assert forall i :: 0 <= i < |secs| ==> IsDigit(secs[i]);
    assert ':' !in secs;
    SplitConcat(mins, secs, ':');
    SplitWithout(secs, ':');
    assert MinutesSeconds(seconds) == mins + [':'] + secs;
  }

  lemma MinutesSecondsExample()
    ensures MinutesSeconds(90) == "1:30"
  {
  }

  /** The longest prefix of digits. */
  function LeadingDigits(s: string): (d: string)
    ensures |d| <= |s| && d == s[..|d|]
    ensures forall i :: 0 <= i < |d| ==> IsDigit(d[i])
    ensures |d| < |s| ==> !IsDigit(s[|d|])
  {
    if s != [] && IsDigit(s[0]) then [s[0]] + LeadingDigits(s[1..]) else []
  }

  lemma {:induction false} LeadingDigitsAll(s: string)
    requires forall i :: 0 <= i < |s| ==> IsDigit(s[i])
    ensures LeadingDigits(s) == s
  {
    if s != [] {
      assert forall i :: 0 <= i < |s| - 1 ==> s[1..][i] == s[i + 1];
      LeadingDigitsAll(s[1..]);
    }
  }

  /** parseInt(s) in base 10: leading white space, an optional sign and the
      longest run of digits after it; nothing (NaN) when there is no digit. */
  function ParseInt(s: string): (r: Option<int>)
    ensures r.None? <==> LeadingDigits(SignStripped(TrimStart(s))) == []
  {
    var t := TrimStart(s);
    var d := LeadingDigits(SignStripped(t));
    if d == [] then None
    else if t[0] == '-' then Some(-(ParseDigits(d) as int))
    else Some(ParseDigits(d))
  }

  function SignStripped(t: string): string {
    if t != [] && (t[0] == '-' || t[0] == '+') then t[1..] else t
  }

  /** Decimal text reads back as its number. */
  lemma ParseIntNatToString(n: nat)
    ensures ParseInt(NatToString(n)) == Some(n)
  {
    var s := NatToString(n);
    assert IsDigit(s[0]);
    assert !IsSpace(s[0]);
    assert TrimStart(s) == s;
    assert SignStripped(s) == s;
    LeadingDigitsAll(s);
    ParseNatToString(n);
  }

  /** The characters String.prototype.trim removes (the Unicode space
      separators beyond these are not modelled). */
  predicate IsSpace(c: char) {
    c == ' ' || c == '\t' || c == '\n' || c == '\r' || c == '\U{000B}' || c == '\U{000C}'
    || c == '\U{00A0}' || c == '\U{FEFF}' || c == '\U{2028}' || c == '\U{2029}'
  }

  /** Every character of s is white space (true of the empty text). */
  predicate AllSpace(s: string) {
    forall i :: 0 <= i < |s| ==> IsSpace(s[i])
  }

  lemma AllSpaceConcat(a: string, b: string)
    requires AllSpace(a) && AllSpace(b)
    ensures AllSpace(a + b)
  {
    forall i | 0 <= i < |a + b| ensures IsSpace((a + b)[i]) {
      if i >= |a| {
        assert (a + b)[i] == b[i - |a|];
      }
    }
  }

  /** A white-space prefix followed by a non-space or by nothing: the text
      is all white space exactly when the prefix is all of it. */
  lemma SpacePrefix(s: string, k: int)
    requires 0 <= k <= |s| && AllSpace(s[..k])
    requires k == |s| || !IsSpace(s[k])
    ensures AllSpace(s) <==> k == |s|
  {
    if k == |s| {
      assert s[..k] == s;
    }
  }

  /** The same for a white-space suffix. */
  lemma SpaceSuffix(s: string, j: int)
    requires 0 <= j <= |s| && AllSpace(s[j..])
    requires j == 0 || !IsSpace(s[j - 1])
    ensures AllSpace(s) <==> j == 0
  {
    if j == 0 {
      assert s[j..] == s;
    }
  }

  /** Facts of a text r left after removing white space from the start of s. */
  predicate StartTrimmed(s: string, r: string) {
    |r| <= |s| && r == s[|s| - |r|..] && AllSpace(s[..|s| - |r|]) &&
    (r == [] || !IsSpace(r[0]))
  }

  /** Removing one more white-space character from the front keeps them. */
  lemma PeelStart(s: string, r: string)
    requires s != [] && IsSpace(s[0]) && StartTrimmed(s[1..], r)
    ensures StartTrimmed(s, r)
  {
    var u := s[1..];
    var k := |u| - |r|;
    assert s[k + 1..] == u[k..];
    assert s[..k + 1] == [s[0]] + u[..k];
    AllSpaceConcat([s[0]], u[..k]);
  }

  function TrimStart(s: string): (r: string)
    ensures StartTrimmed(s, r)
    ensures r == [] <==> AllSpace(s)
  {
    if s != [] && IsSpace(s[0]) then
      var r := TrimStart(s[1..]);
      PeelStart(s, r);
      SpacePrefix(s, |s| - |r|);
      r
    else
      SpacePrefix(s, 0);
      s
  }

  /** Facts of a text r left after removing white space from the end of s. */
  predicate EndTrimmed(s: string, r: string) {
    |r| <= |s| && r == s[..|r|] && AllSpace(s[|r|..]) &&
    (r == [] || !IsSpace(r[|r| - 1]))
  }

  /** Removing one more white-space character from the back keeps them. */
  lemma PeelEnd(s: string, r: string)
    requires s != [] && IsSpace(s[|s| - 1]) && EndTrimmed(s[..|s| - 1], r)
    ensures EndTrimmed(s, r)
  {
    var u := s[..|s| - 1];
    assert s[..|r|] == u[..|r|];
    assert s[|r|..] == u[|r|..] + [s[|s| - 1]];
    AllSpaceConcat(u[|r|..], [s[|s| - 1]]);
  }

  function TrimEnd(s: string): (r: string)
    ensures EndTrimmed(s, r)
    ensures r == [] <==> AllSpace(s)
  {
    if s != [] && IsSpace(s[|s| - 1]) then
      var r := TrimEnd(s[..|s| - 1]);
      PeelEnd(s, r);
      SpaceSuffix(s, |r|);
      r
    else
      SpaceSuffix(s, |s|);
      s
  }

  /** String.prototype.trim. */
  function Trim(s: string): (r: string)
    ensures exists i, j :: 0 <= i <= j <= |s| && r == s[i..j] && AllSpace(s[..i]) && AllSpace(s[j..])
    ensures r == [] || (!IsSpace(r[0]) && !IsSpace(r[|r| - 1]))
    ensures r == [] <==> AllSpace(s)
  {
    var t := TrimStart(s);
    var r := TrimEnd(t);
    TrimBoth(t, r);
    TrimSlice(s, t, r);
    r
  }

  /** The text trim keeps is a slice of the input between white-space ends. */
  lemma TrimSlice(s: string, t: string, r: string)
    requires StartTrimmed(s, t) && EndTrimmed(t, r)
    ensures exists i, j :: 0 <= i <= j <= |s| && r == s[i..j] && AllSpace(s[..i]) && AllSpace(s[j..])
  {
    var i := |s| - |t|;
    var j := i + |r|;
    assert r == s[i..j];
    assert s[j..] == t[|r|..];
  }

  /** Trimming the end of a text that starts with a non-space keeps that
      first character, and leaves it empty only when it was empty. */
  lemma TrimBoth(t: string, r: string)
    requires t == [] || !IsSpace(t[0])
    requires r == TrimEnd(t)
    ensures r == [] <==> t == []
    ensures r != [] ==> r[0] == t[0]
  {
    if t != [] {
      assert !AllSpace(t) by {
        assert !IsSpace(t[0]);
      }
    }
  }

  /** String.prototype.toLowerCase on the ASCII letters. */
  function LowerChar(c: char): char {
    if 'A' <= c <= 'Z' then (c as int + 32) as char else c
  }

  function ToLower(s: string): (r: string)
    ensures |r| == |s|
    ensures forall i :: 0 <= i < |s| ==> r[i] == LowerChar(s[i])
  {
    if s == [] then [] else [LowerChar(s[0])] + ToLower(s[1..])
  }
}
