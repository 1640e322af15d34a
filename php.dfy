/**
 * The part of PHP's value model that the connector relies on: ordered arrays with
 * integer or string keys, `isset`/`??` lookups, `empty()`, the `(string)` cast,
 * `array_merge`, the `[]` append and loose comparison with 0.
 */
module Php {
  import opened Wrappers
  import opened Text
  import opened NumericStrings

  /** An array key: PHP keys are integers or strings. */
  datatype Key = KStr(s: string) | KInt(n: int)

  /** A PHP value; floats, objects and resources are not modelled. */
  datatype Value =
    | VNull
    | VBool(b: bool)
    | VInt(n: int)
    | VStr(s: string)
    | VArr(entries: seq<(Key, Value)>)

  /** The entries of an ordered PHP array, in insertion order. */
  type Entries = seq<(Key, Value)>

  /** Keys are unique in a PHP array. */
  predicate UniqueKeys(es: Entries)
  {
    forall i, j :: 0 <= i < j < |es| ==> es[i].0 != es[j].0
  }

  /** Position of key `k` in `es`, if present. */
  function IndexOf(es: Entries, k: Key): (r: Option<nat>)
    ensures r.Some? ==> r.value < |es| && es[r.value].0 == k
    ensures r.Some? ==> forall j :: 0 <= j < r.value ==> es[j].0 != k
    ensures r.None? <==> forall j :: 0 <= j < |es| ==> es[j].0 != k
  {
    if es == [] then None
    else if es[0].0 == k then Some(0)
    else match IndexOf(es[1..], k)
      case None => None
      case Some(j) => Some(j + 1)
  }

  /** `array_key_exists($k, $es) ? $es[$k] : absent` */
  function Get(es: Entries, k: Key): (r: Option<Value>)
    ensures r.Some? <==> exists j :: 0 <= j < |es| && es[j].0 == k
    ensures r.Some? ==> (k, r.value) in es
  {
    match IndexOf(es, k)
    case None => None
    case Some(i) => assert es[i] == (k, es[i].1); Some(es[i].1)
  }

  /** `isset($es[$k])`: the key is present and its value is not null. */
  predicate IsSet(es: Entries, k: Key)
  {
    Get(es, k).Some? && Get(es, k).value != VNull
  }

  /**
   * `$v[$k] ?? <absent>`: the value when `isset($v[$k])` holds. On a string, an integer
   * offset (negative ones counting from the end) selects one character; the string keys
   * the connector uses are never numeric, so a string key on a string is unset.
   */
  function Index(v: Value, k: Key): (r: Option<Value>)
    ensures r.Some? ==> r.value != VNull
    ensures v.VArr? ==> (r.Some? <==> IsSet(v.entries, k))
    ensures !v.VArr? && !v.VStr? ==> r.None?
  {
    match v
    case VArr(es) => if IsSet(es, k) then Get(es, k) else None
    case VStr(s) =>
      (match k
       case KInt(i) =>
         if 0 <= i < |s| then Some(VStr([s[i]]))
         else if -|s| <= i < 0 then Some(VStr([s[|s| + i]]))
         else None
       case KStr(_) => None)
    case _ => None
  }

  /** `$v[$k1][$k2]... ?? <absent>` */
  function Dig(v: Value, path: seq<Key>): (r: Option<Value>)
    ensures r.Some? ==> r.value != VNull
    ensures path == [] ==> (r.Some? <==> v != VNull)
    decreases path
  {
    if path == [] then (if v == VNull then None else Some(v))
    else match Index(v, path[0])
      case None => None
      case Some(w) => Dig(w, path[1..])
  }

  /** `$es[$k] = $v`: overwrite in place when the key exists, append otherwise. */
  function Put(es: Entries, k: Key, v: Value): (r: Entries)
    ensures Get(r, k) == Some(v)
    ensures forall k' :: k' != k ==> Get(r, k') == Get(es, k')
    ensures |r| == |es| || |r| == |es| + 1
    ensures forall j :: 0 <= j < |es| ==> r[j].0 == es[j].0
    ensures IndexOf(es, k).None? ==> r == es + [(k, v)]
    ensures IndexOf(es, k).Some? ==> r == es[IndexOf(es, k).value := (k, v)]
  {
    match IndexOf(es, k)
    case Some(i) =>
      var r := es[i := (k, v)];
      IndexOfPrefix(es, r, k);
      PutOthers(es, r, k);
      r
    case None =>
      var r := es + [(k, v)];
      IndexOfPrefix(es, r, k);
      assert r[|es|].0 == k;
      PutOthers(es, r, k);
      r
  }

  /** Extending an array (or changing values but not keys) keeps earlier keys' positions. */
  lemma {:induction false} IndexOfPrefix(es: Entries, r: Entries, k: Key)
    requires |es| <= |r|
    requires forall j :: 0 <= j < |es| ==> r[j].0 == es[j].0
    ensures IndexOf(es, k).Some? ==> IndexOf(r, k) == IndexOf(es, k)
    ensures IndexOf(es, k).None? ==> IndexOf(r, k).None? || IndexOf(r, k).value >= |es|
  {
    if es != [] && es[0].0 != k {
      IndexOfPrefix(es[1..], r[1..], k);
    }
  }

  lemma PutOthers(es: Entries, r: Entries, k: Key)
    requires |r| >= |es|
    requires forall j :: 0 <= j < |es| ==> r[j].0 == es[j].0 && (es[j].0 != k ==> r[j] == es[j])
    requires forall j :: |es| <= j < |r| ==> r[j].0 == k
    ensures forall k' :: k' != k ==> Get(r, k') == Get(es, k')
  {
    forall k' | k' != k ensures Get(r, k') == Get(es, k') {
      IndexOfPrefix(es, r, k');
    }
  }

  /** `unset($es[$k])`: the entry goes, every other entry keeps its place. */
  function Remove(es: Entries, k: Key): (r: Entries)
    ensures Get(r, k).None?
    ensures forall k' :: k' != k ==> Get(r, k') == Get(es, k')
    ensures |r| <= |es|
  {
    if es == [] then []
    else if es[0].0 == k then Remove(es[1..], k)
    else
      var rest := Remove(es[1..], k);
      assert forall k' :: k' != es[0].0 ==> Get([es[0]] + rest, k') == Get(rest, k') by {
        forall k' | k' != es[0].0 ensures Get([es[0]] + rest, k') == Get(rest, k') {
          assert ([es[0]] + rest)[1..] == rest;
        }
      }
      assert ([es[0]] + rest)[1..] == rest;
      [es[0]] + rest
  }

  /** PHP's next free integer key: one more than the largest non-negative integer key. */
  function NextIndex(es: Entries): (n: nat)
    ensures forall j :: 0 <= j < |es| && es[j].0.KInt? ==> es[j].0.n < n
  {
    if es == [] then 0
    else
      var rest := NextIndex(es[1..]);
      assert forall j :: 1 <= j < |es| ==> es[j] == es[1..][j - 1];
      if es[0].0.KInt? && es[0].0.n + 1 > rest then es[0].0.n + 1 else rest
  }

  /** `$es[] = $v` on an array. */
  function Append(es: Entries, v: Value): (r: Entries)
    ensures |r| == |es| + 1 && r[..|es|] == es && r[|es|].1 == v
    ensures IndexOf(es, r[|es|].0).None?
  {
    es + [(KInt(NextIndex(es)), v)]
  }

  /** `empty($v)`, i.e. the value is falsy. */
  predicate Empty(v: Value)
  {
    match v
    case VNull => true
    case VBool(b) => !b
    case VInt(n) => n == 0
    case VStr(s) => EmptyString(s)
    case VArr(es) => es == []
  }

  /** `empty($s)` for a string: "" and "0" are both empty. */
  predicate EmptyString(s: string) { s == "" || s == "0" }

  /** `empty($s)` for a nullable string. */
  predicate EmptyOpt(s: Option<string>) { s.None? || EmptyString(s.value) }

  /** The `(string)` cast and string interpolation (arrays give "Array", with a warning). */
  function ToStr(v: Value): string
  {
    match v
    case VNull => ""
    case VBool(b) => if b then "1" else ""
    case VInt(n) => IntToString(n)
    case VStr(s) => s
    case VArr(_) => "Array"
  }

  /**
   * PHP 8 loose comparison `$v > 0`. A numeric string compares by value (a number that
   * rounds to the double 0 is not greater); any other string is compared with "0" as a
   * byte string; an array is greater than any integer.
   */
  predicate GreaterThanZero(v: Value)
  {
    match v
    case VNull => false
    case VBool(b) => b
    case VInt(n) => n > 0
    case VStr(s) =>
      var n := NumericString(s);
      if n.Some? then !n.value.negative && !RoundsToZero(n.value)
      else |s| > 0 && (s[0] > '0' || (s[0] == '0' && |s| > 1))
    case VArr(_) => true
  }

  /** A printed integer, with whitespace around it, is greater than zero exactly when the integer is. */
  lemma GreaterThanZeroOfIntToString(m: int, pre: string, post: string)
    requires AllSpaces(pre) && AllSpaces(post)
    ensures GreaterThanZero(VStr(pre + IntToString(m) + post)) <==> m > 0
  {
    IntegerNumeralText(m);
    NumericStringOfText(IntegerNumeral(m), pre, post);
  }

  /** A numeral compares by its value: a negative sign or a value that rounds to zero makes it not greater. */
  lemma GreaterThanZeroOfNumeral(n: Numeral, pre: string, post: string)
    requires n.Valid() && AllSpaces(pre) && AllSpaces(post)
    ensures GreaterThanZero(VStr(pre + NumeralText(n) + post)) <==> !n.negative && !RoundsToZero(n)
  {
    NumericStringOfText(n, pre, post);
  }

  /** Zero written as a decimal is numeric, so it is not greater than zero. */
  lemma DecimalZeroExample()
    ensures !GreaterThanZero(VStr("0.0"))
  {
    var decimal := Numeral(false, "0", Some("0"), None);
    assert NumeralText(decimal) == "0.0";
    assert decimal.Mantissa() == 0 by {
      assert decimal.whole + decimal.FractionDigits() == "00";
      assert "00"[..1] == "0" && "0"[..0] == "";
    }
    assert "" + NumeralText(decimal) + "" == "0.0";
    GreaterThanZeroOfNumeral(decimal, "", "");
  }

  /** Zero with an exponent is numeric too. */
  lemma ScaledZeroExample()
    ensures !GreaterThanZero(VStr("0e5"))
  {
    var scaled := Numeral(false, "0", None, Some(5));
    assert NumeralText(scaled) == "0e5" by {
      SmallNatToString(5);
      assert DigitChar(5) == '5';
    }
    assert scaled.Mantissa() == 0 by {
      assert scaled.whole + scaled.FractionDigits() == "0";
    }
    assert "" + NumeralText(scaled) + "" == "0e5";
    GreaterThanZeroOfNumeral(scaled, "", "");
  }

  /** A count with whitespace around it is still numeric. */
  lemma PaddedCountExample()
    ensures GreaterThanZero(VStr(" 5"))
    ensures GreaterThanZero(VStr("5 "))
    ensures !GreaterThanZero(VStr(" 0"))
  {
    SmallNatToString(5);
    SmallNatToString(0);
    assert DigitChar(5) == '5' && DigitChar(0) == '0';
    assert AllSpaces(" ") && AllSpaces("");
    assert " " + IntToString(5) + "" == " 5";
    GreaterThanZeroOfIntToString(5, " ", "");
    assert "" + IntToString(5) + " " == "5 ";
    GreaterThanZeroOfIntToString(5, "", " ");
    assert " " + IntToString(0) + "" == " 0";
    GreaterThanZeroOfIntToString(0, " ", "");
  }

  /** A string that is not numeric is compared with "0" byte by byte. */
  lemma WordComparisonExample()
    ensures GreaterThanZero(VStr("abc"))
    ensures !GreaterThanZero(VStr(""))
  {
    assert NumericPrefix("abc").None? by {
      assert SkipSpaces("abc") == "abc";
      assert DigitRun("abc") == ([], "abc");
    }
    assert NumericPrefix("").None? by {
      assert SkipSpaces("") == "";
      assert DigitRun("") == ([], "");
    }
  }

  /** The keys of an array are exactly 0, 1, ..., n - 1 in that order. */
  predicate IsListKeys(es: Entries)
  {
    forall i :: 0 <= i < |es| ==> es[i].0 == KInt(i)
  }

  /** One step of `array_merge`: string keys overwrite in place, integer keys are renumbered. */
  function MergeInto(acc: Entries, es: Entries): Entries
    decreases es
  {
    if es == [] then acc
    else
      var next := if es[0].0.KStr? then Put(acc, es[0].0, es[0].1) else Append(acc, es[0].1);
      MergeInto(next, es[1..])
  }

  /** `array_merge($a, $b)` */
  function ArrayMerge(a: Entries, b: Entries): Entries
  {
    MergeInto(MergeInto([], a), b)
  }

  /** Merging keeps every key already present, at its position. */
  lemma {:induction false} MergeIntoKeepsKeys(acc: Entries, es: Entries)
    ensures |MergeInto(acc, es)| >= |acc|
    ensures forall j :: 0 <= j < |acc| ==> MergeInto(acc, es)[j].0 == acc[j].0
    decreases es
  {
    if es != [] {
      var next := if es[0].0.KStr? then Put(acc, es[0].0, es[0].1) else Append(acc, es[0].1);
      MergeIntoKeepsKeys(next, es[1..]);
    }
  }

  /**
   * Merging keys from an array with unique keys: a string key of `es` ends with its value
   * from `es`; any other string key keeps its value from `acc`.
   */
  lemma {:induction false} MergeIntoStringKey(acc: Entries, es: Entries, k: string)
    requires UniqueKeys(es)
    ensures Get(MergeInto(acc, es), KStr(k)) == (if Get(es, KStr(k)).Some? then Get(es, KStr(k)) else Get(acc, KStr(k)))
    decreases es
  {
    if es != [] {
      var next := if es[0].0.KStr? then Put(acc, es[0].0, es[0].1) else Append(acc, es[0].1);
      assert UniqueKeys(es[1..]) by {
        forall i, j | 0 <= i < j < |es[1..]| ensures es[1..][i].0 != es[1..][j].0 {
          assert es[1..][i] == es[i + 1] && es[1..][j] == es[j + 1];
        }
      }
      MergeIntoStringKey(next, es[1..], k);
      if es[0].0.KInt? {
        AppendGetString(acc, es[0].1, k);
      }
      assert es[0].0 == KStr(k) ==> Get(es[1..], KStr(k)).None? by {
        if es[0].0 == KStr(k) {
          forall j | 0 <= j < |es[1..]| ensures es[1..][j].0 != KStr(k) {
            assert es[1..][j] == es[j + 1];
          }
        }
      }
    }
  }

  lemma AppendGetString(acc: Entries, v: Value, k: string)
    ensures Get(Append(acc, v), KStr(k)) == Get(acc, KStr(k))
  {
    var r := Append(acc, v);
    assert forall j :: 0 <= j < |acc| ==> r[j] == acc[j];
    PutOthers(acc, r, r[|acc|].0);
  }
}
