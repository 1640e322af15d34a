/**
 * Element-name conversion between the snake_case keys of request arrays and the
 * PascalCase element names of QBXML, with its table of three fixed names.
 */
module QbxmlNames {
  import opened Text

  /** `ucwords($s, '_')`: the first character and every character after a '_' upper-cased. */
  function UcWords(s: string): (r: string)
    ensures |r| == |s|
  {
    Capitalize(s, true)
  }

  /** What `ucwords` does to each character: upper-case it exactly at a word start. */
  lemma UcWordsAt(s: string)
    ensures forall i :: 0 <= i < |s| ==>
      UcWords(s)[i] == (if i == 0 || s[i - 1] == '_' then UpperChar(s[i]) else s[i])
  {
    CapitalizeAt(s, true);
    assert UcWords(s) == Capitalize(s, true);
  }

  /** `ucwords` from a position that is a word start exactly when `atStart` holds. */
  function Capitalize(s: string, atStart: bool): (r: string)
    ensures |r| == |s|
  {
    if s == [] then []
    else [if atStart then UpperChar(s[0]) else s[0]] + Capitalize(s[1..], s[0] == '_')
  }

  /** Position `i` of `s` starts a word: it is the first position and `atStart` holds, or it follows a '_'. */
  predicate AtWordStart(s: string, i: nat, atStart: bool)
    requires i < |s|
  {
    if i == 0 then atStart else s[i - 1] == '_'
  }

  lemma {:induction false} CapitalizeAt(s: string, atStart: bool)
    ensures forall i :: 0 <= i < |s| ==>
      Capitalize(s, atStart)[i] == (if AtWordStart(s, i, atStart) then UpperChar(s[i]) else s[i])
  {
    if s != [] {
      var t, f := s[1..], s[0] == '_';
      CapitalizeAt(t, f);
      forall i | 0 <= i < |s|
        ensures Capitalize(s, atStart)[i] == (if AtWordStart(s, i, atStart) then UpperChar(s[i]) else s[i])
      {
        if i > 0 {
          assert Capitalize(s, atStart)[i] == Capitalize(t, f)[i - 1];
          assert t[i - 1] == s[i];
          if i > 1 { assert t[i - 2] == s[i - 1]; }
        }
      }
    }
  }

  /** `str_replace('_', '', $s)` */
  function StripUnderscores(s: string): (r: string)
  {
    if s == [] then []
    else if s[0] == '_' then StripUnderscores(s[1..])
    else [s[0]] + StripUnderscores(s[1..])
  }

  /** The result has no '_' left, and a string without '_' is unchanged. */
  lemma {:induction false} StripUnderscoresSpec(s: string)
    ensures '_' !in StripUnderscores(s)
    ensures '_' !in s ==> StripUnderscores(s) == s
  {
    if s != [] {
      StripUnderscoresSpec(s[1..]);
      assert '_' !in s ==> '_' !in s[1..] by {
        if '_' !in s { forall j | 0 <= j < |s[1..]| ensures s[1..][j] != '_' { assert s[1..][j] == s[j + 1]; } }
      }
    }
  }

  /** `toPascalCase`: three fixed names, matched after `strtolower`; otherwise words joined capitalised. */
  function ToPascalCase(s: string): string
  {
    var lower := Lower(s);
    if lower == "qbxml" then "QBXML"
    else if lower == "qbxml_msgs_rq" then "QBXMLMsgsRq"
    else if lower == "qbxml_msgs_rs" then "QBXMLMsgsRs"
    else StripUnderscores(UcWords(s))
  }

  /**
   * `preg_replace('/([a-z])([A-Z])/', '$1_$2', $s)`: a '_' between each lower-case letter
   * and the upper-case letter after it. Matches cannot overlap, since the second letter
   * of a match is upper-case and so never starts another one.
   */
  function SplitCamel(s: string): (r: string)
    ensures |r| >= |s|
  {
    if |s| < 2 then s
    else if IsLower(s[0]) && IsUpper(s[1]) then [s[0], '_'] + SplitCamel(s[1..])
    else [s[0]] + SplitCamel(s[1..])
  }

  /** `toSnakeCase`: three fixed names, matched exactly; otherwise split at lower-to-upper steps and lower-cased. */
  function ToSnakeCase(s: string): string
  {
    if s == "QBXML" then "qbxml"
    else if s == "QBXMLMsgsRq" then "qbxml_msgs_rq"
    else if s == "QBXMLMsgsRs" then "qbxml_msgs_rs"
    else Lower(SplitCamel(s))
  }

  // ---------------------------------------------------------------------------
  // The fixed names and worked examples

  /** The fixed names are recognised whatever their case. */
  lemma PascalSpecialNames(s: string)
    ensures Lower(s) == "qbxml" ==> ToPascalCase(s) == "QBXML"
    ensures Lower(s) == "qbxml_msgs_rq" ==> ToPascalCase(s) == "QBXMLMsgsRq"
    ensures Lower(s) == "qbxml_msgs_rs" ==> ToPascalCase(s) == "QBXMLMsgsRs"
  {
  }

  /** `list_id` becomes `ListId`, not `ListID`. */
  lemma ListIdPascal()
    ensures ToPascalCase("list_id") == "ListId"
  {
    assert Lower("list_id") == "list_id";
    UcWordsAt("list_id");
    assert UcWords("list_id") == "List_Id";
    StripAppend("List", "_Id");
    assert "List" + "_Id" == "List_Id";
    StripUnderscoresSpec("List");
    StripUnderscoresSpec("Id");
    assert StripUnderscores("_Id") == StripUnderscores("Id");
  }

  /** `ListID` becomes `list_id`, so it does not survive a round trip. */
  lemma ListIdSnake()
    ensures ToSnakeCase("ListID") == "list_id"
    ensures ToPascalCase(ToSnakeCase("ListID")) != "ListID"
  {
    assert SplitCamel("ListID") == "List_ID";
    LowerAt("List_ID");
    assert Lower("List_ID") == "list_id";
    ListIdPascal();
  }

  // ---------------------------------------------------------------------------
  // Round trip for well-formed snake_case keys

  /** A character of a snake_case word. */
  predicate WordChar(c: char) { IsLower(c) || IsDigit(c) }

  /** A word of a key: a lower-case letter, then lower-case letters and digits. */
  predicate SnakeWord(w: string)
  {
    |w| > 0 && IsLower(w[0]) && forall i :: 0 <= i < |w| ==> WordChar(w[i])
  }

  /** Index of the first '_' of `s`. */
  function FirstUnderscore(s: string): (i: nat)
    requires '_' in s
    ensures i < |s| && s[i] == '_' && '_' !in s[..i]
  {
    if s[0] == '_' then 0
    else
      var j := FirstUnderscore(s[1..]);
      assert s[..j + 1] == [s[0]] + s[1..][..j];
      j + 1
  }

  /**
   * A key that survives `toPascalCase` then `toSnakeCase`: words joined by single '_',
   * each word followed by another having at least two characters and ending in a letter,
   * so that the capitalised next word starts a lower-to-upper step the decoder splits at.
   */
  predicate SnakeName(s: string)
    decreases |s|
  {
    if '_' in s then
      var i := FirstUnderscore(s);
      2 <= i && SnakeWord(s[..i]) && IsLower(s[i - 1]) && SnakeName(s[i + 1..])
    else SnakeWord(s)
  }

  /** The generic branch of `toPascalCase`. */
  function PascalWords(s: string): string
  {
    StripUnderscores(UcWords(s))
  }

  /** A word's capitalised form: first character upper-cased. */
  function CapWord(w: string): (r: string)
    requires |w| > 0
    ensures |r| == |w| && r[0] == UpperChar(w[0]) && r[1..] == w[1..]
  {
    [UpperChar(w[0])] + w[1..]
  }

  lemma {:induction false} CapitalizeAppend(a: string, b: string, atStart: bool)
    ensures Capitalize(a + b, atStart) == Capitalize(a, atStart) + Capitalize(b, if a == [] then atStart else a[|a| - 1] == '_')
  {
    if a == [] {
      assert a + b == b;
    } else {
      assert (a + b)[1..] == a[1..] + b;
      CapitalizeAppend(a[1..], b, a[0] == '_');
    }
  }

  /** A word without '_' is capitalised at its first character only. */
  lemma UcWordsOfWord(w: string)
    requires |w| > 0 && '_' !in w
    ensures UcWords(w) == CapWord(w)
  {
    UcWordsAt(w);
    forall i | 0 <= i < |w| ensures UcWords(w)[i] == CapWord(w)[i] {
      if i > 0 { assert w[i - 1] in w; }
    }
  }

  lemma {:induction false} StripAppend(a: string, b: string)
    ensures StripUnderscores(a + b) == StripUnderscores(a) + StripUnderscores(b)
  {
    if a == [] {
      assert a + b == b;
    } else {
      assert (a + b)[1..] == a[1..] + b;
      StripAppend(a[1..], b);
    }
  }

  /** The generic PascalCase of a word, or of a word followed by '_' and more words. */
  lemma PascalWordsSplit(s: string)
    requires SnakeName(s)
    ensures '_' !in s ==> PascalWords(s) == CapWord(s)
    ensures '_' in s ==> var i := FirstUnderscore(s);
      PascalWords(s) == CapWord(s[..i]) + PascalWords(s[i + 1..])
  {
    if '_' in s {
      var i := FirstUnderscore(s);
      var w, rest := s[..i], s[i + 1..];
      assert |w| > 0 && '_' !in w;
      SplitAtUnderscore(s, i);
      PascalWordsJoin(w, rest);
    } else {
      PascalWordsOfWord(s);
    }
  }

  lemma SplitAtUnderscore(s: string, i: nat)
    requires i < |s| && s[i] == '_'
    ensures s == s[..i] + ("_" + s[i + 1..])
  {
  }

  lemma PascalWordsOfWord(w: string)
    requires |w| > 0 && '_' !in w
    ensures PascalWords(w) == CapWord(w)
  {
    UcWordsOfWord(w);
    assert '_' !in CapWord(w) by { assert CapWord(w)[1..] == w[1..]; assert UpperChar(w[0]) != '_'; }
    StripUnderscoresSpec(CapWord(w));
  }

  lemma PascalWordsJoin(w: string, rest: string)
    requires |w| > 0 && '_' !in w
    ensures PascalWords(w + ("_" + rest)) == CapWord(w) + PascalWords(rest)
  {
    CapitalizeAppend(w, "_" + rest, true);
    assert ("_" + rest)[1..] == rest;
    assert Capitalize("_" + rest, false) == "_" + Capitalize(rest, true);
    UcWordsOfWord(w);
    var cw := Capitalize(w, true);
    StripAppend(cw, "_" + Capitalize(rest, true));
    assert ("_" + Capitalize(rest, true))[1..] == Capitalize(rest, true);
    PascalWordsOfWord(w);
  }

  /** No lower-to-upper step anywhere. */
  predicate NoCamelStep(s: string)
  {
    forall i :: 0 <= i < |s| - 1 ==> !(IsLower(s[i]) && IsUpper(s[i + 1]))
  }

  lemma {:induction false} SplitCamelNoStep(s: string)
    requires NoCamelStep(s)
    ensures SplitCamel(s) == s
    decreases |s|
  {
    if |s| >= 2 {
      assert NoCamelStep(s[1..]) by {
        forall i | 0 <= i < |s[1..]| - 1 ensures !(IsLower(s[1..][i]) && IsUpper(s[1..][i + 1])) {
          assert s[1..][i] == s[i + 1] && s[1..][i + 1] == s[i + 2];
        }
      }
      SplitCamelNoStep(s[1..]);
    }
  }

  /** The separator `SplitCamel` puts between two neighbouring characters. */
  function CamelSep(c: char, d: char): string
  {
    if IsLower(c) && IsUpper(d) then "_" else ""
  }

  /** `SplitCamel` of two or more characters: the first, the separator it may need, the rest. */
  lemma SplitCamelCons(s: string)
    requires |s| >= 2
    ensures SplitCamel(s) == [s[0]] + CamelSep(s[0], s[1]) + SplitCamel(s[1..])
  {
  }

  lemma {:induction false} SplitCamelAppend(a: string, b: string)
    requires |a| > 0
    ensures SplitCamel(a + b) ==
      SplitCamel(a) + (if |b| > 0 then CamelSep(a[|a| - 1], b[0]) else "") + SplitCamel(b)
    decreases |a|
  {
    if |a| == 1 {
      SplitCamelAppendOne(a, b);
    } else {
      var x := a + b;
      assert x[1..] == a[1..] + b;
      assert x[0] == a[0] && x[1] == a[1];
      var join := if |b| > 0 then CamelSep(a[|a| - 1], b[0]) else "";
      assert a[1..][|a[1..]| - 1] == a[|a| - 1];
      SplitCamelAppend(a[1..], b);
      assert SplitCamel(x[1..]) == SplitCamel(a[1..]) + join + SplitCamel(b);
      SplitCamelCons(x);
      SplitCamelCons(a);
      var sep := CamelSep(a[0], a[1]);
      assert SplitCamel(x) == [a[0]] + sep + (SplitCamel(a[1..]) + join + SplitCamel(b));
    }
  }

  lemma SplitCamelAppendOne(a: string, b: string)
    requires |a| == 1
    ensures SplitCamel(a + b) == a + (if |b| > 0 then CamelSep(a[0], b[0]) else "") + SplitCamel(b)
  {
    if |b| == 0 {
      assert a + b == a;
    } else {
      assert (a + b)[1..] == b;
      SplitCamelCons(a + b);
    }
  }

  lemma LowerUpperChar(c: char)
    requires IsLower(c)
    ensures LowerChar(UpperChar(c)) == c
  {
  }

  /** A word of a well-formed key, capitalised and then lower-cased, is itself. */
  lemma LowerCapWord(w: string)
    requires SnakeWord(w)
    ensures Lower(CapWord(w)) == w
    ensures NoCamelStep(CapWord(w))
  {
    var c := CapWord(w);
    LowerAt(c);
    LowerUpperChar(w[0]);
    forall i | 0 <= i < |w| ensures Lower(c)[i] == w[i] {
      if i > 0 { assert c[i] == c[1..][i - 1] == w[1..][i - 1] == w[i]; }
    }
    forall i | 0 <= i < |c| - 1 ensures !(IsLower(c[i]) && IsUpper(c[i + 1])) {
      assert c[i + 1] == c[1..][i] == w[1..][i] == w[i + 1];
    }
  }

  /** One word step: a capitalised word, then words starting upper-case, splits at the join. */
  lemma GenericStep(w: string, pr: string, rest: string)
    requires SnakeWord(w) && |w| >= 2 && IsLower(w[|w| - 1])
    requires |pr| > 0 && IsUpper(pr[0]) && Lower(SplitCamel(pr)) == rest
    ensures Lower(SplitCamel(CapWord(w) + pr)) == w + "_" + rest
  {
    var cw := CapWord(w);
    LowerCapWord(w);
    SplitAtWordJoin(cw, pr);
    LowerJoin(cw, SplitCamel(pr));
  }

  lemma SplitAtWordJoin(cw: string, pr: string)
    requires |cw| > 0 && NoCamelStep(cw) && IsLower(cw[|cw| - 1])
    requires |pr| > 0 && IsUpper(pr[0])
    ensures SplitCamel(cw + pr) == cw + "_" + SplitCamel(pr)
  {
    SplitCamelAppend(cw, pr);
    SplitCamelNoStep(cw);
  }

  lemma LowerJoin(a: string, b: string)
    ensures Lower(a + "_" + b) == Lower(a) + "_" + Lower(b)
  {
    LowerAppend(a + "_", b);
    LowerAppend(a, "_");
    assert Lower("_") == "_";
  }

  /** A first word joined to a rest that already round-trips. */
  lemma GenericJoin(w: string, rest: string)
    requires SnakeWord(w) && |w| >= 2 && IsLower(w[|w| - 1])
    requires |PascalWords(rest)| > 0 && IsUpper(PascalWords(rest)[0]) && Lower(SplitCamel(PascalWords(rest))) == rest
    ensures var cp := CapWord(w) + PascalWords(rest);
      |cp| >= 2 && IsUpper(cp[0]) && !IsUpper(cp[1]) && Lower(SplitCamel(cp)) == w + "_" + rest
  {
    var cw, pr := CapWord(w), PascalWords(rest);
    GenericStep(w, pr, rest);
    assert (cw + pr)[1] == cw[1] == w[1];
    assert (cw + pr)[0] == cw[0];
  }

  /** The generic snake_case of the generic PascalCase of a well-formed key is the key. */
  lemma {:induction false} GenericRoundTrip(s: string)
    requires SnakeName(s)
    ensures |PascalWords(s)| > 0 && IsUpper(PascalWords(s)[0])
    ensures |PascalWords(s)| >= 2 ==> !IsUpper(PascalWords(s)[1])
    ensures Lower(SplitCamel(PascalWords(s))) == s
    decreases |s|
  {
    if '_' in s {
      var i := FirstUnderscore(s);
      var w, rest := s[..i], s[i + 1..];
      SnakeNameFirstWord(s);
      GenericRoundTrip(rest);
      GenericJoin(w, rest);
    } else {
      GenericWord(s);
    }
  }

  /** A well-formed key with a '_' is its first word, the '_' and a well-formed rest. */
  lemma SnakeNameFirstWord(s: string)
    requires SnakeName(s) && '_' in s
    ensures var i := FirstUnderscore(s);
      SnakeWord(s[..i]) && |s[..i]| >= 2 && IsLower(s[..i][i - 1]) && SnakeName(s[i + 1..])
      && s == s[..i] + "_" + s[i + 1..] && PascalWords(s) == CapWord(s[..i]) + PascalWords(s[i + 1..])
  {
    PascalWordsSplit(s);
  }

  /** A single word round-trips through its capitalised form. */
  lemma GenericWord(s: string)
    requires SnakeWord(s) && '_' !in s
    ensures |PascalWords(s)| > 0 && IsUpper(PascalWords(s)[0])
    ensures |PascalWords(s)| >= 2 ==> !IsUpper(PascalWords(s)[1])
    ensures Lower(SplitCamel(PascalWords(s))) == s
  {
    PascalWordsOfWord(s);
    LowerCapWord(s);
    SplitCamelNoStep(CapWord(s));
    assert |s| >= 2 ==> CapWord(s)[1] == s[1];
  }

  /** Every character of a well-formed key is a lower-case letter, a digit or '_'. */
  lemma {:induction false} SnakeNameChars(s: string)
    requires SnakeName(s)
    ensures forall i :: 0 <= i < |s| ==> WordChar(s[i]) || s[i] == '_'
    decreases |s|
  {
    if '_' in s {
      var i := FirstUnderscore(s);
      SnakeNameChars(s[i + 1..]);
      forall j | 0 <= j < |s| ensures WordChar(s[j]) || s[j] == '_' {
        if j < i { assert s[j] == s[..i][j]; }
        else if j > i { assert s[j] == s[i + 1..][j - i - 1]; }
      }
    }
  }

  /** A well-formed key is already lower-case. */
  lemma SnakeNameLower(s: string)
    requires SnakeName(s)
    ensures Lower(s) == s
  {
    SnakeNameChars(s);
    LowerAt(s);
  }

  /** The three fixed names, as element names. */
  predicate SpecialElementName(p: string)
  {
    p == "QBXML" || p == "QBXMLMsgsRq" || p == "QBXMLMsgsRs"
  }

  /** The three fixed names, as keys. */
  predicate SpecialKey(s: string)
  {
    s == "qbxml" || s == "qbxml_msgs_rq" || s == "qbxml_msgs_rs"
  }

  lemma PascalOfLowerKey(s: string)
    requires Lower(s) == s
    ensures ToPascalCase(s) == if SpecialKey(s) then ToSnakeCaseInverse(s) else PascalWords(s)
  {
  }

  /** The element name a fixed key maps to. */
  function ToSnakeCaseInverse(s: string): string
  {
    if s == "qbxml" then "QBXML" else if s == "qbxml_msgs_rq" then "QBXMLMsgsRq" else "QBXMLMsgsRs"
  }

  lemma SnakeOfGeneric(p: string)
    requires !SpecialElementName(p)
    ensures ToSnakeCase(p) == Lower(SplitCamel(p))
  {
  }

  /** `toSnakeCase(toPascalCase(k)) == k` for every well-formed snake_case key. */
  lemma SnakePascalRoundTrip(s: string)
    requires SnakeName(s)
    ensures ToSnakeCase(ToPascalCase(s)) == s
  {
    SnakeNameLower(s);
    PascalOfLowerKey(s);
    if SpecialKey(s) {
      SpecialRoundTrip(s);
    } else {
      GenericRoundTrip(s);
      NotSpecialElementName(PascalWords(s));
      SnakeOfGeneric(PascalWords(s));
    }
  }

  lemma SpecialRoundTrip(s: string)
    requires SpecialKey(s)
    ensures ToSnakeCase(ToSnakeCaseInverse(s)) == s
  {
  }

  /** The fixed element names all have an upper-case second letter. */
  lemma NotSpecialElementName(p: string)
    requires |p| >= 2 ==> !IsUpper(p[1])
    ensures !SpecialElementName(p)
  {
  }

  /** Distinct well-formed keys have distinct element names. */
  lemma PascalInjective(a: string, b: string)
    requires SnakeName(a) && SnakeName(b) && a != b
    ensures ToPascalCase(a) != ToPascalCase(b)
  {
    SnakePascalRoundTrip(a);
    SnakePascalRoundTrip(b);
  }
}
