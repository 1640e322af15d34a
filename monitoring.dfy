/**
 * Two helpers of the monitoring server (`qbwc-mcp-server/src/index.ts`): reading a time range
 * such as "7d" as a number of hours, and summarising the error codes found in the logs. The
 * rest of that server reads databases and log files and is not modelled.
 */
module Monitoring {
  import opened Text

  // ---------------------------------------------------------------------------
  // parseTimeRange

  /** The hours one unit letter stands for; 0 for a letter the pattern does not accept. */
  function UnitHours(unit: char): nat
  {
    match unit
    case 'h' => 1
    case 'd' => 24
    case 'w' => 24 * 7
    case 'm' => 24 * 30
    case _ => 0
  }

  predicate IsUnit(c: char)
  {
    c == 'h' || c == 'd' || c == 'w' || c == 'm'
  }

  /** `^(\d+)([hdwm])$`: one or more ASCII digits and then exactly one unit letter, and nothing else. */
  predicate IsTimeRange(range: string)
  {
    |range| >= 2 && AllDigits(range[..|range| - 1]) && IsUnit(range[|range| - 1])
  }

  /** `parseTimeRange`: the number times the unit's hours; any other text gives 24 hours. */
  function ParseTimeRange(range: string): (hours: int)
    ensures !IsTimeRange(range) ==> hours == 24
    ensures IsTimeRange(range) ==> hours == DecimalValue(range[..|range| - 1]) * UnitHours(range[|range| - 1])
  {
    if IsTimeRange(range) then DecimalValue(range[..|range| - 1]) * UnitHours(range[|range| - 1]) else 24
  }

  /** A count written in decimal and followed by a unit reads back as the count times the unit's hours. */
  lemma ParseTimeRangeUnits(n: nat)
    ensures ParseTimeRange(NatToString(n) + "h") == n
    ensures ParseTimeRange(NatToString(n) + "d") == 24 * n
    ensures ParseTimeRange(NatToString(n) + "w") == 168 * n
    ensures ParseTimeRange(NatToString(n) + "m") == 720 * n
  {
    var digits := NatToString(n);
    DecimalOfNatToString(n);
    assert (digits + "h")[..|digits|] == digits;
    assert (digits + "d")[..|digits|] == digits;
    assert (digits + "w")[..|digits|] == digits;
    assert (digits + "m")[..|digits|] == digits;
  }

  /** The pattern's shape: a non-empty run of digits, then one unit letter, and nothing around them. */
  predicate IsDigitsThenUnit(digits: string, unit: char)
  {
    digits != [] && AllDigits(digits) && IsUnit(unit)
  }

  /** Digits and a unit letter read as the digits' value times the unit's hours. */
  lemma ParseTimeRangeOfMatch(digits: string, unit: char)
    requires IsDigitsThenUnit(digits, unit)
    ensures ParseTimeRange(digits + [unit]) == DecimalValue(digits) * UnitHours(unit)
    ensures unit == 'h' ==> ParseTimeRange(digits + [unit]) == DecimalValue(digits)
    ensures unit == 'm' ==> ParseTimeRange(digits + [unit]) == 720 * DecimalValue(digits)
  {
    assert (digits + [unit])[..|digits|] == digits;
  }

  /** Every text that is not digits followed by one unit letter falls back to a day. */
  lemma ParseTimeRangeFallback(range: string)
    requires forall digits, unit :: IsDigitsThenUnit(digits, unit) ==> range != digits + [unit]
    ensures ParseTimeRange(range) == 24
  {
    if IsTimeRange(range) {
      var digits, unit := range[..|range| - 1], range[|range| - 1];
      assert IsDigitsThenUnit(digits, unit) && range == digits + [unit];
    }
  }

  /** Texts the pattern refuses: empty, no unit, an upper-case or unknown unit, no digits, a leading space. */
  lemma ParseTimeRangeSamples()
    ensures ParseTimeRange("") == 24
    ensures ParseTimeRange("24") == 24
    ensures ParseTimeRange("1H") == 24
    ensures ParseTimeRange("1y") == 24
    ensures ParseTimeRange("h") == 24
    ensures ParseTimeRange(" 1h") == 24
  {
    assert " 1h"[..2][0] == ' ';
    assert "1y"[1] == 'y';
    assert "1H"[1] == 'H';
    assert "24"[1] == '4';
  }

  // ---------------------------------------------------------------------------
  // generateDiagnosis

  /** The JavaScript values an `errorCode` field is modelled with. */
  datatype JsValue = JUndefined | JNull | JBool(b: bool) | JNum(n: int) | JStr(s: string)

  /** `Boolean(v)` */
  predicate Truthy(v: JsValue)
  {
    match v
    case JUndefined => false
    case JNull => false
    case JBool(b) => b
    case JNum(n) => n != 0
    case JStr(s) => s != ""
  }

  /** `.filter(Boolean)`: the truthy values, in order. */
  function TruthyOnly(vs: seq<JsValue>): (r: seq<JsValue>)
    ensures forall i :: 0 <= i < |r| ==> Truthy(r[i])
    ensures forall v :: v in r <==> v in vs && Truthy(v)
  {
    if vs == [] then []
    else
      var rest := TruthyOnly(vs[..|vs| - 1]);
      var last := vs[|vs| - 1];
      assert vs == vs[..|vs| - 1] + [last];
      if Truthy(last) then rest + [last] else rest
  }

  /** `[...new Set(vs)]`: each distinct value once, at the position of its first occurrence. */
  function Distinct(vs: seq<JsValue>): (r: seq<JsValue>)
    ensures forall v :: v in r <==> v in vs
    ensures forall i, j :: 0 <= i < j < |r| ==> r[i] != r[j]
    ensures |r| <= |vs|
  {
    if vs == [] then []
    else
      var rest := Distinct(vs[..|vs| - 1]);
      var last := vs[|vs| - 1];
      assert vs == vs[..|vs| - 1] + [last];
      if last in rest then rest else rest + [last]
  }

  /** A value's first occurrence comes before another's exactly when it does so in the set's order too. */
  lemma {:induction false} DistinctKeepsFirstOccurrenceOrder(vs: seq<JsValue>, i: nat, j: nat)
    requires i < j < |Distinct(vs)|
    ensures FirstIndex(vs, Distinct(vs)[i]) < FirstIndex(vs, Distinct(vs)[j])
  {
    var front := vs[..|vs| - 1];
    var last := vs[|vs| - 1];
    var rest := Distinct(front);
    FirstIndexPrefix(vs, Distinct(vs)[i]);
    FirstIndexPrefix(vs, Distinct(vs)[j]);
    if j < |rest| {
      DistinctKeepsFirstOccurrenceOrder(front, i, j);
    } else {
      assert Distinct(vs)[j] == last && last !in front;
      assert FirstIndex(vs, last) == |vs| - 1;
    }
  }

  /** The position of the first occurrence of `v`. */
  function FirstIndex(vs: seq<JsValue>, v: JsValue): (k: nat)
    requires v in vs
    ensures k < |vs| && vs[k] == v && forall m :: 0 <= m < k ==> vs[m] != v
  {
    if vs[0] == v then 0 else 1 + FirstIndex(vs[1..], v)
  }

  /** A value present before the last element has the same first occurrence in the shorter list. */
  lemma FirstIndexPrefix(vs: seq<JsValue>, v: JsValue)
    requires v in vs
    ensures v in vs[..|vs| - 1] ==> FirstIndex(vs, v) == FirstIndex(vs[..|vs| - 1], v)
  {
    if v in vs[..|vs| - 1] {
      var k := FirstIndex(vs[..|vs| - 1], v);
      var k' := FirstIndex(vs, v);
      assert vs[k] == v;
      assert k' <= k;
      assert vs[..|vs| - 1][k'] == v;
    }
  }

  /** `includes(v)` with SameValueZero, which for these values is equality. */
  predicate Includes(vs: seq<JsValue>, v: JsValue)
  {
    v in vs
  }

  /** String conversion as `join` and template literals apply it. */
  function Show(v: JsValue): string
  {
    match v
    case JUndefined => ""
    case JNull => ""
    case JBool(b) => if b then "true" else "false"
    case JNum(n) => IntToString(n)
    case JStr(s) => s
  }

  /** `vs.join(sep)` */
  function Join(vs: seq<JsValue>, sep: string): string
  {
    if vs == [] then "" else if |vs| == 1 then Show(vs[0]) else Show(vs[0]) + sep + Join(vs[1..], sep)
  }

  const NoErrors := "No errors found"
  const Duplicate3100 := "Error 3100: Name/Reference already exists. This indicates duplicate record insertion. Check for existing records before adding new ones."
  const Internal500 := "Error 500: QuickBooks internal error. Check QB company file integrity and ensure QuickBooks is running properly."
  const Permission3170 := "Error 3170: Permission denied. Check user permissions in QuickBooks."
  const NotFound3180 := "Error 3180: Object not found. The referenced record does not exist in QuickBooks."

  /** `includes('<code>') || includes(<code>)`: a known code given either as a string or as a number. */
  predicate HasCode(codes: seq<JsValue>, text: string, code: int)
  {
    Includes(codes, JStr(text)) || Includes(codes, JNum(code))
  }

  /** The summary for codes that are none of the known ones. */
  function FoundMessage(unique: seq<JsValue>): string
  {
    "Found " + IntToString(|unique|) + " unique error codes: " + Join(unique, ", ")
      + ". Review the error messages for specific details."
  }

  /**
   * `generateDiagnosis` over the `errorCode` of each error record: no records, one of the four
   * known codes in priority order, or a count and list of the distinct truthy codes.
   */
  function GenerateDiagnosis(errorCodes: seq<JsValue>): string
  {
    if |errorCodes| == 0 then NoErrors
    else
      var unique := Distinct(TruthyOnly(errorCodes));
      if HasCode(unique, "3100", 3100) then Duplicate3100
      else if HasCode(unique, "500", 500) then Internal500
      else if HasCode(unique, "3170", 3170) then Permission3170
      else if HasCode(unique, "3180", 3180) then NotFound3180
      else FoundMessage(unique)
  }

  /**
   * The diagnosis follows the priority 3100, 500, 3170, 3180, each recognised as text or as a
   * number anywhere among the records; a code that appears only as a falsy value cannot be
   * recognised because the filter drops it first.
   */
  lemma DiagnosisPriority(errorCodes: seq<JsValue>)
    requires |errorCodes| > 0
    ensures var has3100 := HasCode(errorCodes, "3100", 3100);
      var has500 := HasCode(errorCodes, "500", 500);
      var has3170 := HasCode(errorCodes, "3170", 3170);
      var has3180 := HasCode(errorCodes, "3180", 3180);
      && (has3100 ==> GenerateDiagnosis(errorCodes) == Duplicate3100)
      && (!has3100 && has500 ==> GenerateDiagnosis(errorCodes) == Internal500)
      && (!has3100 && !has500 && has3170 ==> GenerateDiagnosis(errorCodes) == Permission3170)
      && (!has3100 && !has500 && !has3170 && has3180 ==> GenerateDiagnosis(errorCodes) == NotFound3180)
      && (!has3100 && !has500 && !has3170 && !has3180 ==>
            GenerateDiagnosis(errorCodes) == FoundMessage(Distinct(TruthyOnly(errorCodes))))
  {
    KnownCodeSurvives(errorCodes, "3100", 3100);
    KnownCodeSurvives(errorCodes, "500", 500);
    KnownCodeSurvives(errorCodes, "3170", 3170);
    KnownCodeSurvives(errorCodes, "3180", 3180);
  }

  /** A truthy code is among the distinct truthy codes exactly when some record carries it. */
  lemma KnownCodeSurvives(errorCodes: seq<JsValue>, text: string, code: int)
    requires text != "" && code != 0
    ensures HasCode(Distinct(TruthyOnly(errorCodes)), text, code) == HasCode(errorCodes, text, code)
  {
    assert Truthy(JStr(text)) && Truthy(JNum(code));
  }

  /** No records: nothing found. Records whose codes are all falsy: "Found 0 unique error codes: . …". */
  lemma DiagnosisWithoutCodes(errorCodes: seq<JsValue>)
    ensures errorCodes == [] ==> GenerateDiagnosis(errorCodes) == NoErrors
    ensures errorCodes != [] && (forall i :: 0 <= i < |errorCodes| ==> !Truthy(errorCodes[i])) ==>
      GenerateDiagnosis(errorCodes) == FoundMessage([])
  {
    if errorCodes != [] && (forall i :: 0 <= i < |errorCodes| ==> !Truthy(errorCodes[i])) {
      NothingTruthy(errorCodes);
      DiagnosisOfNoUniqueCodes(errorCodes);
    }
  }

  lemma DiagnosisOfNoUniqueCodes(errorCodes: seq<JsValue>)
    requires errorCodes != [] && TruthyOnly(errorCodes) == []
    ensures GenerateDiagnosis(errorCodes) == FoundMessage([])
  {
    var unique := Distinct(TruthyOnly(errorCodes));
    assert unique == [];
    assert !HasCode(unique, "3100", 3100) && !HasCode(unique, "500", 500);
    assert !HasCode(unique, "3170", 3170) && !HasCode(unique, "3180", 3180);
  }

  lemma {:induction false} NothingTruthy(vs: seq<JsValue>)
    requires forall i :: 0 <= i < |vs| ==> !Truthy(vs[i])
    ensures TruthyOnly(vs) == []
  {
    if vs != [] {
      NothingTruthy(vs[..|vs| - 1]);
    }
  }

  lemma RepeatedCode(c: string)
    requires c != ""
    ensures Distinct(TruthyOnly([JStr(c), JStr(c), JNull])) == [JStr(c)]
  {
    var one, two, codes := [JStr(c)], [JStr(c), JStr(c)], [JStr(c), JStr(c), JNull];
    assert codes[..2] == two && two[..1] == one && one[..0] == [];
    assert TruthyOnly(one) == one;
    assert TruthyOnly(two) == two;
    assert TruthyOnly(codes) == two;
    assert Distinct(one) == one;
  }

  /** A repeated unknown code is counted once: two records with the same code and one without a code report one code. */
  lemma DiagnosisOfRepeatedCode(c: string)
    requires c != "" && c != "3100" && c != "500" && c != "3170" && c != "3180"
    ensures GenerateDiagnosis([JStr(c), JStr(c), JNull]) == FoundMessage([JStr(c)])
  {
    RepeatedCode(c);
    UnknownCode(c);
  }

  /**
   * Without a known code, the summary lists the distinct truthy codes, and the count it
   * reports is the number of different truthy values among the records.
   */
  lemma DiagnosisCountsDistinct(errorCodes: seq<JsValue>)
    requires errorCodes != []
    requires !HasCode(errorCodes, "3100", 3100) && !HasCode(errorCodes, "500", 500)
    requires !HasCode(errorCodes, "3170", 3170) && !HasCode(errorCodes, "3180", 3180)
    ensures GenerateDiagnosis(errorCodes) == FoundMessage(Distinct(TruthyOnly(errorCodes)))
    ensures |Distinct(TruthyOnly(errorCodes))| == |set v | v in errorCodes && Truthy(v)|
  {
    DiagnosisPriority(errorCodes);
    var unique := Distinct(TruthyOnly(errorCodes));
    DistinctCount(unique);
    assert (set v | v in unique) == (set v | v in errorCodes && Truthy(v));
  }

  /** A list without repeats has as many different values as elements. */
  lemma {:induction false} DistinctCount(vs: seq<JsValue>)
    requires forall i, j :: 0 <= i < j < |vs| ==> vs[i] != vs[j]
    ensures |set v | v in vs| == |vs|
  {
    if vs != [] {
      var front := vs[..|vs| - 1];
      var last := vs[|vs| - 1];
      DistinctCount(front);
      assert (set v | v in vs) == (set v | v in front) + {last} by {
        assert vs == front + [last];
      }
      assert last !in (set v | v in front);
    }
  }

  lemma UnknownCode(c: string)
    requires c != "3100" && c != "500" && c != "3170" && c != "3180"
    ensures !HasCode([JStr(c)], "3100", 3100) && !HasCode([JStr(c)], "500", 500)
    ensures !HasCode([JStr(c)], "3170", 3170) && !HasCode([JStr(c)], "3180", 3180)
  {
  }
}
