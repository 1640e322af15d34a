/**
 * PHP's `version_compare` on purely numeric dotted versions ("2.3.0.30"): the parts are
 * compared as numbers from the left, and when one version runs out of parts first, the
 * longer one is the newer.
 */
module Versions {
  import opened Text

  /** The text split at every '.'; there is always at least one part. */
  function Split(s: string): (parts: seq<string>)
    ensures |parts| >= 1
    ensures forall i :: 0 <= i < |parts| ==> '.' !in parts[i]
    decreases |s|
  {
    if s == [] then [""]
    else
      var rest := Split(s[1..]);
      if s[0] == '.' then [""] + rest
      else [[s[0]] + rest[0]] + rest[1..]
  }

  /** Split and joined back with '.', the text is unchanged. */
  function JoinDots(parts: seq<string>): string
    requires |parts| >= 1
  {
    if |parts| == 1 then parts[0] else parts[0] + "." + JoinDots(parts[1..])
  }

  lemma {:induction false} SplitJoin(s: string)
    ensures JoinDots(Split(s)) == s
    decreases |s|
  {
    if s != [] {
      SplitJoin(s[1..]);
      var rest := Split(s[1..]);
      if s[0] == '.' {
        assert s == "." + s[1..];
      } else {
        if |rest| > 1 {
          assert JoinDots(rest) == rest[0] + "." + JoinDots(rest[1..]);
          assert ([s[0]] + rest[0]) + "." + JoinDots(rest[1..]) == [s[0]] + (rest[0] + "." + JoinDots(rest[1..]));
        }
        assert s == [s[0]] + s[1..];
      }
    }
  }

  /** Every part is a non-empty run of digits. */
  predicate NumericVersion(s: string)
  {
    forall p :: p in Split(s) ==> p != [] && AllDigits(p)
  }

  /** The numeric value of each part. */
  function Parts(s: string): (ns: seq<nat>)
    requires NumericVersion(s)
    ensures |ns| == |Split(s)|
  {
    var parts := Split(s);
    seq(|parts|, i requires 0 <= i < |parts| => DecimalValue(parts[i]))
  }

  /** -1, 0 or 1 as `a` is older than, the same as, or newer than `b`. */
  function Compare(a: seq<nat>, b: seq<nat>): (c: int)
    ensures -1 <= c <= 1
    ensures c == 0 <==> a == b
  {
    if a == [] && b == [] then 0
    else if a == [] then -1
    else if b == [] then 1
    else if a[0] < b[0] then -1
    else if a[0] > b[0] then 1
    else
      var c := Compare(a[1..], b[1..]);
      assert a == [a[0]] + a[1..] && b == [b[0]] + b[1..];
      c
  }

  /** The order is antisymmetric: swapping the arguments flips the sign. */
  lemma {:induction false} CompareFlips(a: seq<nat>, b: seq<nat>)
    ensures Compare(b, a) == -Compare(a, b)
  {
    if a != [] && b != [] && a[0] == b[0] {
      CompareFlips(a[1..], b[1..]);
    }
  }

  /** The order is transitive. */
  lemma {:induction false} CompareTransitive(a: seq<nat>, b: seq<nat>, c: seq<nat>)
    requires Compare(a, b) >= 0 && Compare(b, c) >= 0
    ensures Compare(a, c) >= 0
  {
    if a != [] && b != [] && c != [] && a[0] == b[0] && b[0] == c[0] {
      CompareTransitive(a[1..], b[1..], c[1..]);
    }
  }

  /** A version with extra parts appended is newer than the version itself. */
  lemma {:induction false} LongerIsNewer(a: seq<nat>, extra: seq<nat>)
    requires extra != []
    ensures Compare(a + extra, a) == 1
  {
    if a != [] {
      assert (a + extra)[1..] == a[1..] + extra;
      LongerIsNewer(a[1..], extra);
    }
  }

  /** `version_compare($a, $b, '>=')` for numeric versions. */
  predicate AtLeast(a: string, b: string)
    requires NumericVersion(a) && NumericVersion(b)
  {
    Compare(Parts(a), Parts(b)) >= 0
  }
}
