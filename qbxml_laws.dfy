/**
 * What the QBXML codec promises: the envelope `wrapRequest` builds, how each kind of
 * entry is encoded, and how each kind of element is decoded, including the quirks of
 * the decoder (lost text, failing repeated text siblings).
 */
module QbxmlLaws {
  import opened Wrappers
  import opened Text
  import opened Php
  import opened QbxmlNames
  import opened QbxmlParser

  // ---------------------------------------------------------------------------
  // The request envelope

  /** A request that is already wrapped is returned as it is. */
  lemma WrapKeepsWrapped(request: Entries, continueOnError: bool)
    requires IsSet(request, KStr("qbxml")) || IsSet(request, KStr("QBXML"))
    ensures WrapRequest(request, continueOnError) == request
  {
  }

  /** A request carrying its message set is wrapped once, in `qbxml`. */
  lemma WrapMessageSet(request: Entries, continueOnError: bool)
    requires !IsSet(request, KStr("qbxml")) && !IsSet(request, KStr("QBXML"))
    requires IsSet(request, KStr("qbxml_msgs_rq")) || IsSet(request, KStr("QBXMLMsgsRq"))
    ensures WrapRequest(request, continueOnError) == [(KStr("qbxml"), VArr(request))]
  {
  }

  /** The header entry `xml_attributes => [onError => ...]` that a bare request gets. */
  function Header(continueOnError: bool): Entries
  {
    [(KStr("xml_attributes"), VArr([(KStr("onError"), VStr(OnError(continueOnError)))]))]
  }

  /**
   * Any other request goes under `qbxml` and `qbxml_msgs_rq`, behind an `xml_attributes`
   * entry that carries the error policy unless the request brings its own; every other
   * string key keeps its value.
   */
  lemma WrapBareRequest(request: Entries, continueOnError: bool)
    requires UniqueKeys(request)
    requires !IsSet(request, KStr("qbxml")) && !IsSet(request, KStr("QBXML"))
    requires !IsSet(request, KStr("qbxml_msgs_rq")) && !IsSet(request, KStr("QBXMLMsgsRq"))
    ensures var w := WrapRequest(request, continueOnError);
      |w| == 1 && w[0].0 == KStr("qbxml") && w[0].1.VArr? &&
      |w[0].1.entries| == 1 && w[0].1.entries[0].0 == KStr("qbxml_msgs_rq") && w[0].1.entries[0].1.VArr?
    ensures var msgs := WrapRequest(request, continueOnError)[0].1.entries[0].1.entries;
      |msgs| > 0 && msgs[0].0 == KStr("xml_attributes") &&
      Get(msgs, KStr("xml_attributes")) ==
        (if Get(request, KStr("xml_attributes")).Some? then Get(request, KStr("xml_attributes"))
         else Some(VArr([(KStr("onError"), VStr(OnError(continueOnError)))])))
    ensures var msgs := WrapRequest(request, continueOnError)[0].1.entries[0].1.entries;
      forall k :: k != "xml_attributes" ==> Get(msgs, KStr(k)) == Get(request, KStr(k))
  {
    var header := Header(continueOnError);
    var start := MergeInto([], header);
    assert header[0].0.KStr? && header[1..] == [];
    assert Put([], header[0].0, header[0].1) == header;
    assert start == MergeInto(header, header[1..]);
    assert start == header;
    var msgs := ArrayMerge(header, request);
    MergeIntoKeepsKeys(start, request);
    MergeIntoStringKey(start, request, "xml_attributes");
    forall k | k != "xml_attributes" ensures Get(msgs, KStr(k)) == Get(request, KStr(k)) {
      MergeIntoStringKey(start, request, k);
    }
  }

  /** The key of the wrapped request converts to the element name `QBXML`. */
  lemma PascalOfQbxml()
    ensures ToPascalCase("qbxml") == "QBXML"
  {
    LowerAt("qbxml");
    assert Lower("qbxml") == "qbxml";
  }

  /**
   * `arrayToQbxml` of a request that is not already wrapped: the `QBXML` root holds one
   * element, itself named `QBXML`.
   */
  lemma NestedEnvelope(data: Entries, continueOnError: bool)
    requires UniqueKeys(data)
    requires !IsSet(data, KStr("qbxml")) && !IsSet(data, KStr("QBXML"))
    requires ArrayToQbxml(data, continueOnError).Ok?
    ensures var root := ArrayToQbxml(data, continueOnError).value;
      root.name == "QBXML" && root.attrs == [] && |root.children| == 1 && root.children[0].name == "QBXML"
  {
    var w := WrapRequest(data, continueOnError);
    WrappedOnce(data, continueOnError);
    var inner := w[0].1.entries;
    PascalOfQbxml();
    var first := EncodeEntry(QbxmlRoot, w[0].0, w[0].1);
    assert first.Ok? && first.value.children == [EncodeInto(Leaf("QBXML", ""), inner, 0).value];
    assert EncodeInto(QbxmlRoot, w, 0) == EncodeInto(first.value, w, 1);
  }

  /** A request that is not already wrapped is wrapped once, around an array that is not a list. */
  lemma WrappedOnce(data: Entries, continueOnError: bool)
    requires UniqueKeys(data)
    requires !IsSet(data, KStr("qbxml")) && !IsSet(data, KStr("QBXML"))
    ensures var w := WrapRequest(data, continueOnError);
      |w| == 1 && w[0].0 == KStr("qbxml") && w[0].1.VArr? && !IsNumericArray(w[0].1.entries)
  {
    var w := WrapRequest(data, continueOnError);
    var inner := w[0].1.entries;
    if IsSet(data, KStr("qbxml_msgs_rq")) || IsSet(data, KStr("QBXMLMsgsRq")) {
      assert inner == data;
      var j :| 0 <= j < |data| && (data[j].0 == KStr("qbxml_msgs_rq") || data[j].0 == KStr("QBXMLMsgsRq"));
      assert !data[j].0.KInt?;
    } else {
      WrapBareRequest(data, continueOnError);
      assert inner[0].0.KStr?;
    }
  }

  // ---------------------------------------------------------------------------
  // The encoder

  /** Attribute pairs as `addAttribute` receives them. */
  function AttrPairs(attrs: Entries): seq<(string, string)>
  {
    seq(|attrs|, j requires 0 <= j < |attrs| => (if attrs[j].0.KStr? then attrs[j].0.s else "", ToStr(attrs[j].1)))
  }

  /** `xml_attributes` never adds a child: it changes only the attributes of the element. */
  lemma EncodeAttributesOnly(el: Element, v: Value)
    requires EncodeEntry(el, KStr("xml_attributes"), v).Ok?
    ensures var r := EncodeEntry(el, KStr("xml_attributes"), v).value;
      r.name == el.name && r.text == el.text && r.children == el.children
  {
  }

  /**
   * Distinct, non-empty, new attribute names are appended in order, each with the
   * string form of its value.
   */
  lemma {:induction false} AttributesAppended(el: Element, attrs: Entries, i: nat)
    requires i <= |attrs|
    requires forall j :: i <= j < |attrs| ==> attrs[j].0.KStr? && attrs[j].0.s != ""
    requires forall j, j' :: i <= j < j' < |attrs| ==> attrs[j].0 != attrs[j'].0
    requires forall j :: i <= j < |attrs| ==> !HasAttribute(el.attrs, attrs[j].0.s)
    ensures AddAttributes(el, attrs, i) == Ok(el.(attrs := el.attrs + AttrPairs(attrs)[i..]))
    decreases |attrs| - i
  {
    if i < |attrs| {
      var p := (attrs[i].0.s, ToStr(attrs[i].1));
      var el' := el.(attrs := el.attrs + [p]);
      AttributeAppendStep(el, attrs, i);
      forall j | i + 1 <= j < |attrs| ensures !HasAttribute(el'.attrs, attrs[j].0.s) {
        assert attrs[j].0 != attrs[i].0;
        HasAttributeAppend(el.attrs, p, attrs[j].0.s);
      }
      AttributesAppended(el', attrs, i + 1);
      assert AttrPairs(attrs)[i..] == [p] + AttrPairs(attrs)[i + 1..];
      assert el'.attrs + AttrPairs(attrs)[i + 1..] == el.attrs + AttrPairs(attrs)[i..];
    } else {
      assert el.attrs + AttrPairs(attrs)[i..] == el.attrs;
    }
  }

  /** One attribute loop step that adds a new attribute. */
  lemma AttributeAppendStep(el: Element, attrs: Entries, i: nat)
    requires i < |attrs| && attrs[i].0.KStr? && attrs[i].0.s != "" && !HasAttribute(el.attrs, attrs[i].0.s)
    ensures AddAttributes(el, attrs, i) == AddAttributes(el.(attrs := el.attrs + [(attrs[i].0.s, ToStr(attrs[i].1))]), attrs, i + 1)
  {
  }

  /** After an attribute is appended, a name is present when it was before or is the new one. */
  lemma HasAttributeAppend(a: seq<(string, string)>, p: (string, string), name: string)
    ensures HasAttribute(a + [p], name) <==> HasAttribute(a, name) || p.0 == name
  {
    if HasAttribute(a + [p], name) && p.0 != name {
      var j :| 0 <= j < |a + [p]| && (a + [p])[j].0 == name;
      assert a[j].0 == name;
    }
    if HasAttribute(a, name) {
      var j :| 0 <= j < |a| && a[j].0 == name;
      assert (a + [p])[j].0 == name;
    }
    if p.0 == name {
      assert (a + [p])[|a|].0 == name;
    }
  }

  /** The item loop: one sibling per item, in order, each the encoding of its item. */
  lemma {:induction false} EncodeItemsSpec(el: Element, name: string, items: Entries, i: nat)
    requires i <= |items|
    ensures EncodeItems(el, name, items, i).Ok? <==>
      (i == |items| || name != "") && forall j :: i <= j < |items| ==> EncodeItem(name, items[j].1).Ok?
    ensures var r := EncodeItems(el, name, items, i);
      r.Ok? ==>
        |r.value.children| == |el.children| + |items| - i &&
        r.value.children[..|el.children|] == el.children &&
        forall j :: i <= j < |items| ==> EncodeItem(name, items[j].1) == Ok(r.value.children[|el.children| + j - i])
    decreases |items| - i
  {
    if i < |items| && name != "" {
      var c := EncodeItem(name, items[i].1);
      if c.Ok? {
        var el' := AddChild(el, c.value);
        EncodeItemsSpec(el', name, items, i + 1);
        var r := EncodeItems(el, name, items, i);
        assert r == EncodeItems(el', name, items, i + 1);
        if r.Ok? {
          var cs := r.value.children;
          assert cs[..|el'.children|] == el'.children;
          assert cs[..|el.children|] == el'.children[..|el.children|];
          assert cs[|el.children|] == el'.children[|el.children|];
        }
      }
    }
  }

  /**
   * A non-empty array keyed 0..n-1 becomes n sibling elements named after the key, in
   * order, each the encoding of its item; nothing else of the element changes.
   */
  lemma NumericArraySiblings(el: Element, k: string, items: Entries)
    requires k != "xml_attributes" && IsNumericArray(items)
    ensures var name := ToPascalCase(k);
      EncodeEntry(el, KStr(k), VArr(items)).Ok? <==>
        name != "" && forall j :: 0 <= j < |items| ==> EncodeItem(name, items[j].1).Ok?
    ensures var name := ToPascalCase(k); var r := EncodeEntry(el, KStr(k), VArr(items));
      r.Ok? ==>
        r.value.attrs == el.attrs &&
        |r.value.children| == |el.children| + |items| &&
        r.value.children[..|el.children|] == el.children &&
        forall j :: 0 <= j < |items| ==>
          EncodeItem(name, items[j].1) == Ok(r.value.children[|el.children| + j]) &&
          r.value.children[|el.children| + j].name == name
  {
    var name := ToPascalCase(k);
    EncodeItemsSpec(el, name, items, 0);
    var r := EncodeEntry(el, KStr(k), VArr(items));
    assert r == EncodeItems(el, name, items, 0);
    if r.Ok? {
      forall j | 0 <= j < |items|
        ensures EncodeItem(name, items[j].1) == Ok(r.value.children[|el.children| + j])
        ensures r.value.children[|el.children| + j].name == name
      {
        assert |el.children| + j - 0 == |el.children| + j;
      }
    }
  }

  /** Any other array, the empty one included, becomes exactly one nested element. */
  lemma AssocArrayOneChild(el: Element, k: string, es: Entries)
    requires k != "xml_attributes" && !IsNumericArray(es)
    ensures var name := ToPascalCase(k); var r := EncodeEntry(el, KStr(k), VArr(es));
      r.Ok? <==> name != "" && EncodeInto(Leaf(name, ""), es, 0).Ok?
    ensures var name := ToPascalCase(k); var r := EncodeEntry(el, KStr(k), VArr(es));
      r.Ok? ==>
        r.value.attrs == el.attrs && r.value.children == el.children + [EncodeInto(Leaf(name, ""), es, 0).value] &&
        r.value.children[|el.children|].name == name
    ensures es == [] && ToPascalCase(k) != "" ==>
      EncodeEntry(el, KStr(k), VArr(es)) == Ok(AddChild(el, Leaf(ToPascalCase(k), "")))
  {
  }

  /**
   * A scalar becomes one text element whose stored text is the scalar's string form: the
   * escaping applied before `addChild` is undone by its entity resolution, and the escaped
   * form is legal character data.
   */
  lemma ScalarChildText(el: Element, k: string, v: Value)
    requires k != "xml_attributes" && !v.VArr?
    ensures EncodeEntry(el, KStr(k), v) ==
      if ToPascalCase(k) == "" then Fail(EmptyName) else Ok(AddChild(el, Leaf(ToPascalCase(k), ToStr(v))))
    ensures '<' !in Escape(ToStr(v)) && '>' !in Escape(ToStr(v))
  {
    UnescapeEscape(ToStr(v));
    EscapeIsCharData(ToStr(v));
  }

  /** An integer key outside `xml_attributes` is a `TypeError`. */
  lemma IntegerKeyFails(el: Element, n: int, v: Value)
    ensures EncodeEntry(el, KInt(n), v) == Fail(KeyNotString)
  {
  }

  // ---------------------------------------------------------------------------
  // Array helpers for the decoder

  /** Writing a key twice leaves the second value. */
  lemma PutTwice(es: Entries, k: Key, x: Value, y: Value)
    ensures Put(Put(es, k, x), k, y) == Put(es, k, y)
  {
    var once := Put(es, k, x);
    match IndexOf(es, k)
    case Some(i) =>
      IndexOfPrefix(es, once, k);
      assert Put(once, k, y) == once[i := (k, y)];
      assert once[i := (k, y)] == es[i := (k, y)];
    case None =>
      IndexOfPrefix(es, once, k);
      assert once[|es|].0 == k;
      assert IndexOf(once, k) == Some(|es|);
      assert once[|es| := (k, y)] == es + [(k, y)];
  }

  /** Writing a key the value it already has changes nothing. */
  lemma PutSame(es: Entries, k: Key, v: Value)
    requires Get(es, k) == Some(v)
    ensures Put(es, k, v) == es
  {
  }

  /** A list: the values under the keys 0, 1, ..., n - 1. */
  function ListEntries(vs: seq<Value>): (r: Entries)
    ensures |r| == |vs| && IsListKeys(r)
  {
    seq(|vs|, j requires 0 <= j < |vs| => (KInt(j), vs[j]))
  }

  lemma {:induction false} NextIndexShifted(es: Entries, a: nat)
    requires forall j :: 0 <= j < |es| ==> es[j].0 == KInt(a + j)
    ensures NextIndex(es) == if es == [] then 0 else a + |es|
    decreases |es|
  {
    if es != [] {
      assert forall j :: 0 <= j < |es[1..]| ==> es[1..][j] == es[j + 1];
      NextIndexShifted(es[1..], a + 1);
    }
  }

  /** `$list[] = $v` on a list extends the list. */
  lemma AppendList(vs: seq<Value>, v: Value)
    ensures Append(ListEntries(vs), v) == ListEntries(vs + [v])
  {
    NextIndexShifted(ListEntries(vs), 0);
  }

  // ---------------------------------------------------------------------------
  // The decoder

  /** A child decoded recursively rather than read as text. */
  predicate Structured(c: Element)
  {
    c.children != [] || c.attrs != []
  }

  function AttributePairs(attrs: seq<(string, string)>): Entries
  {
    seq(|attrs|, j requires 0 <= j < |attrs| => (KStr(attrs[j].0), VStr(attrs[j].1)))
  }

  /** Attributes with distinct names become one string entry each, in document order. */
  lemma {:induction false} AttributeEntriesDistinct(attrs: seq<(string, string)>)
    requires forall j, j' :: 0 <= j < j' < |attrs| ==> attrs[j].0 != attrs[j'].0
    ensures AttributeEntries(attrs) == AttributePairs(attrs)
    decreases |attrs|
  {
    if attrs != [] {
      var n := |attrs| - 1;
      var init, last := attrs[..n], attrs[n];
      assert forall j, j' :: 0 <= j < j' < |init| ==> init[j].0 != init[j'].0 by {
        assert forall j :: 0 <= j < |init| ==> init[j] == attrs[j];
      }
      AttributeEntriesDistinct(init);
      var pairs := AttributePairs(init);
      assert IndexOf(pairs, KStr(last.0)).None? by {
        assert forall j :: 0 <= j < |pairs| ==> pairs[j].0 == KStr(attrs[j].0);
      }
      AttributePairsSnoc(attrs);
    }
  }

  lemma AttributePairsSnoc(attrs: seq<(string, string)>)
    requires attrs != []
    ensures AttributePairs(attrs)
      == AttributePairs(attrs[..|attrs| - 1]) + [(KStr(attrs[|attrs| - 1].0), VStr(attrs[|attrs| - 1].1))]
  {
  }

  /** With attributes, `$result` starts as the single entry `xml_attributes`. */
  lemma DecodeStartShape(attrs: seq<(string, string)>)
    ensures attrs == [] ==> DecodeStart(attrs) == []
    ensures attrs != [] ==> DecodeStart(attrs) == [(KStr("xml_attributes"), VArr(AttributeEntries(attrs)))]
  {
  }

  /**
   * A child without children decodes to its text when it has no attributes; with
   * attributes it decodes to just its `xml_attributes` and its text is lost.
   */
  lemma DecodeChildLeaf(c: Element)
    requires c.children == []
    ensures c.attrs == [] ==> DecodeChild(c) == Ok(VStr(c.text))
    ensures c.attrs != [] ==> DecodeChild(c) == Ok(VArr([(KStr("xml_attributes"), VArr(AttributeEntries(c.attrs)))]))
  {
    DecodeStartShape(c.attrs);
    assert DecodeChildren(DecodeStart(c.attrs), c.children) == Ok(DecodeStart(c.attrs));
  }

  /** The element's own name plays no part in its decoding. */
  lemma RootNameIgnored(e: Element, n: string)
    ensures DecodeElement(e.(name := n)) == DecodeElement(e)
  {
  }

  /** No child of `cs` converts to key `k`. */
  predicate NoChildKey(cs: seq<Element>, k: Key)
  {
    forall j :: 0 <= j < |cs| ==> KStr(ToSnakeCase(cs[j].name)) != k
  }

  predicate StringKeys(es: Entries)
  {
    forall j :: 0 <= j < |es| ==> es[j].0.KStr?
  }

  lemma PutShape(es: Entries, k: Key, v: Value)
    ensures var r := Put(es, k, v);
      |r| >= |es| && (forall j :: 0 <= j < |es| ==> r[j].0 == es[j].0) &&
      (forall j :: |es| <= j < |r| ==> r[j].0 == k)
  {
  }

  /** Storing a child keeps the old keys in their places and adds at most its own. */
  lemma CollectKeys(acc: Entries, k: Key, v: Value)
    requires Collect(acc, k, v).Ok?
    ensures var r := Collect(acc, k, v).value;
      |r| >= |acc| && (forall j :: 0 <= j < |acc| ==> r[j].0 == acc[j].0) &&
      (forall j :: |acc| <= j < |r| ==> r[j].0 == k)
  {
    if IsSet(acc, k) {
      var cur := Get(acc, k).value;
      var promoted := if Index(cur, KInt(0)).None? then Put(acc, k, VArr([(KInt(0), cur)])) else acc;
      PutShape(acc, k, VArr([(KInt(0), cur)]));
      assert |promoted| == |acc|;
      var list := Get(promoted, k).value;
      PutShape(promoted, k, VArr(Append(list.entries, v)));
    } else {
      PutShape(acc, k, v);
    }
  }

  /** Storing a child changes no other key. */
  lemma CollectOthers(acc: Entries, k: Key, v: Value)
    requires Collect(acc, k, v).Ok?
    ensures var r := Collect(acc, k, v).value;
      forall k' :: k' != k ==> Get(r, k') == Get(acc, k')
  {
  }

  /** The children loop only adds or changes the keys of the children. */
  lemma {:induction false} DecodeChildrenKeeps(acc: Entries, cs: seq<Element>)
    requires DecodeChildren(acc, cs).Ok?
    ensures var r := DecodeChildren(acc, cs).value;
      |r| >= |acc| && (forall j :: 0 <= j < |acc| ==> r[j].0 == acc[j].0) &&
      (forall k :: NoChildKey(cs, k) ==> Get(r, k) == Get(acc, k))
    ensures StringKeys(acc) ==> StringKeys(DecodeChildren(acc, cs).value)
    decreases cs
  {
    if cs != [] {
      var k := KStr(ToSnakeCase(cs[0].name));
      var v := DecodeChild(cs[0]).value;
      var acc' := Collect(acc, k, v).value;
      CollectKeys(acc, k, v);
      CollectOthers(acc, k, v);
      assert DecodeChildren(acc, cs) == DecodeChildren(acc', cs[1..]);
      DecodeChildrenKeeps(acc', cs[1..]);
      forall k' | NoChildKey(cs, k') ensures NoChildKey(cs[1..], k') {
        forall j | 0 <= j < |cs[1..]| ensures KStr(ToSnakeCase(cs[1..][j].name)) != k' {
          assert cs[1..][j] == cs[j + 1];
        }
      }
      assert NoChildKey(cs, KStr(ToSnakeCase(cs[0].name))) ==> false;
    }
  }

  /** A decoded element has only string keys, so it is never mistaken for a list. */
  lemma DecodedKeysAreStrings(e: Element)
    requires DecodeElement(e).Ok?
    ensures StringKeys(DecodeElement(e).value.entries)
    ensures !IsSet(DecodeElement(e).value.entries, KInt(0))
  {
    DecodeStartShape(e.attrs);
    DecodeChildrenKeeps(DecodeStart(e.attrs), e.children);
  }

  /**
   * The attributes of an element come first, under `xml_attributes`, unless a child
   * element converts to that same key.
   */
  lemma DecodeAttributesFirst(e: Element)
    requires e.attrs != [] && NoChildKey(e.children, KStr("xml_attributes"))
    requires DecodeElement(e).Ok?
    ensures DecodeElement(e).value.entries[0] == (KStr("xml_attributes"), VArr(AttributeEntries(e.attrs)))
  {
    DecodeStartShape(e.attrs);
    DecodeChildrenKeeps(DecodeStart(e.attrs), e.children);
    var r := DecodeElement(e).value.entries;
    assert r[0].0 == KStr("xml_attributes");
    assert IndexOf(r, KStr("xml_attributes")) == Some(0);
  }

  /** Without attributes there is no `xml_attributes` entry, unless a child converts to it. */
  lemma DecodeNoAttributes(e: Element)
    requires e.attrs == [] && NoChildKey(e.children, KStr("xml_attributes"))
    requires DecodeElement(e).Ok?
    ensures Get(DecodeElement(e).value.entries, KStr("xml_attributes")).None?
  {
    DecodeStartShape(e.attrs);
    DecodeChildrenKeeps(DecodeStart(e.attrs), e.children);
  }

  predicate AllDecode(cs: seq<Element>)
  {
    forall j :: 0 <= j < |cs| ==> DecodeChild(cs[j]).Ok?
  }

  lemma AllDecodeTail(cs: seq<Element>)
    requires cs != [] && AllDecode(cs)
    ensures AllDecode(cs[1..])
  {
    assert forall j :: 0 <= j < |cs[1..]| ==> cs[1..][j] == cs[j + 1];
  }

  /** The decoded values of children that all decode, in document order. */
  function ChildValues(cs: seq<Element>): (vs: seq<Value>)
    requires AllDecode(cs)
    ensures |vs| == |cs|
  {
    if cs == [] then [] else AllDecodeTail(cs); [DecodeChild(cs[0]).value] + ChildValues(cs[1..])
  }

  /** A further occurrence of a key that already holds a list is appended to the list. */
  lemma CollectRepeat(acc: Entries, k: Key, vs: seq<Value>, v: Value)
    requires |vs| >= 1 && vs[0] != VNull
    requires Get(acc, k) == Some(VArr(ListEntries(vs)))
    ensures Collect(acc, k, v) == Ok(Put(acc, k, VArr(ListEntries(vs + [v]))))
  {
    var list := ListEntries(vs);
    assert IndexOf(list, KInt(0)) == Some(0);
    assert Index(VArr(list), KInt(0)) == Some(vs[0]);
    AppendList(vs, v);
  }

  /** The second occurrence of a key whose value is not a list wraps both into a list. */
  lemma CollectSecond(acc: Entries, k: Key, v1: Value, v2: Value)
    requires Get(acc, k) == Some(v1) && v1 != VNull && Index(v1, KInt(0)).None?
    ensures Collect(acc, k, v2) == Ok(Put(acc, k, VArr(ListEntries([v1, v2]))))
  {
    var wrapped := [(KInt(0), v1)];
    assert wrapped == ListEntries([v1]);
    AppendList([v1], v2);
    assert [v1] + [v2] == [v1, v2];
    PutTwice(acc, k, VArr(wrapped), VArr(ListEntries([v1, v2])));
  }

  /** Every child of `cs` converts to key `k`. */
  predicate AllKey(cs: seq<Element>, k: Key)
  {
    forall j :: 0 <= j < |cs| ==> KStr(ToSnakeCase(cs[j].name)) == k
  }

  /** One step of the children loop. */
  lemma DecodeChildrenStep(acc: Entries, cs: seq<Element>, k: Key, acc': Entries)
    requires cs != [] && KStr(ToSnakeCase(cs[0].name)) == k && DecodeChild(cs[0]).Ok?
    requires Collect(acc, k, DecodeChild(cs[0]).value) == Ok(acc')
    ensures DecodeChildren(acc, cs) == DecodeChildren(acc', cs[1..])
  {
  }

  lemma ConcatAssoc(a: seq<Value>, b: seq<Value>, c: seq<Value>)
    ensures a + b + c == a + (b + c)
  {
  }

  /** Further children under a key that holds a list extend that list, in document order. */
  lemma {:induction false} SiblingsExtendList(acc: Entries, k: Key, vs: seq<Value>, cs: seq<Element>)
    requires |vs| >= 1 && vs[0] != VNull
    requires Get(acc, k) == Some(VArr(ListEntries(vs)))
    requires AllKey(cs, k) && AllDecode(cs)
    ensures DecodeChildren(acc, cs) == Ok(Put(acc, k, VArr(ListEntries(vs + ChildValues(cs)))))
    decreases cs
  {
    if cs == [] {
      assert vs + ChildValues(cs) == vs;
      PutSame(acc, k, VArr(ListEntries(vs)));
    } else {
      var v := DecodeChild(cs[0]).value;
      var vs' := vs + [v];
      var acc' := Put(acc, k, VArr(ListEntries(vs')));
      CollectRepeat(acc, k, vs, v);
      DecodeChildrenStep(acc, cs, k, acc');
      AllDecodeTail(cs);
      assert AllKey(cs[1..], k) by {
        assert forall j :: 0 <= j < |cs[1..]| ==> cs[1..][j] == cs[j + 1];
      }
      assert vs'[0] == vs[0];
      SiblingsExtendList(acc', k, vs', cs[1..]);
      var rest := ChildValues(cs[1..]);
      PutTwice(acc, k, VArr(ListEntries(vs')), VArr(ListEntries(vs' + rest)));
      assert ChildValues(cs) == [v] + rest;
      ConcatAssoc(vs, [v], rest);
    }
  }

  /**
   * Two or more same-named structured siblings become one list, in document order,
   * under the converted name.
   */
  lemma RepeatedStructuredSiblings(e: Element)
    requires e.attrs == [] && |e.children| >= 2 && AllDecode(e.children)
    requires forall j :: 0 <= j < |e.children| ==> e.children[j].name == e.children[0].name && Structured(e.children[j])
    ensures DecodeElement(e) == Ok(VArr([(KStr(ToSnakeCase(e.children[0].name)), VArr(ListEntries(ChildValues(e.children))))]))
  {
    var cs := e.children;
    var k := KStr(ToSnakeCase(cs[0].name));
    DecodeStartShape(e.attrs);
    DecodeFirstTwo(cs, k);
    DecodeAfterTwo(cs, k);
  }

  /** The siblings after the first two extend the list they started. */
  lemma {:induction false} DecodeAfterTwo(cs: seq<Element>, k: Key)
    requires |cs| >= 2 && AllDecode(cs) && Structured(cs[0])
    requires forall j :: 0 <= j < |cs| ==> KStr(ToSnakeCase(cs[j].name)) == k
    ensures DecodeChildren([(k, VArr(ListEntries([DecodeChild(cs[0]).value, DecodeChild(cs[1]).value])))], cs[2..])
         == Ok([(k, VArr(ListEntries(ChildValues(cs))))])
  {
    var v1, v2 := DecodeChild(cs[0]).value, DecodeChild(cs[1]).value;
    assert v1 != VNull by {
      DecodedKeysAreStrings(cs[0]);
    }
    var acc2 := [(k, VArr(ListEntries([v1, v2])))];
    assert AllDecode(cs[2..]) && AllKey(cs[2..], k) by {
      assert forall j :: 0 <= j < |cs[2..]| ==> cs[2..][j] == cs[j + 2];
    }
    PutSingleton(k, VArr(ListEntries([v1, v2])), VNull);
    SiblingsExtendList(acc2, k, [v1, v2], cs[2..]);
    ChildValuesFirstTwo(cs);
    PutSingleton(k, VArr(ListEntries([v1, v2])), VArr(ListEntries(ChildValues(cs))));
  }

  /** Writing the only key of a one-entry array replaces its value. */
  lemma PutSingleton(k: Key, a: Value, b: Value)
    ensures Get([(k, a)], k) == Some(a)
    ensures Put([(k, a)], k, b) == [(k, b)]
  {
  }

  /** The first two same-named structured siblings start a two-element list. */
  lemma {:induction false} DecodeFirstTwo(cs: seq<Element>, k: Key)
    requires |cs| >= 2 && AllDecode(cs) && Structured(cs[0]) && cs[1].name == cs[0].name
    requires k == KStr(ToSnakeCase(cs[0].name))
    ensures DecodeChildren([], cs)
         == DecodeChildren([(k, VArr(ListEntries([DecodeChild(cs[0]).value, DecodeChild(cs[1]).value])))], cs[2..])
  {
    var v1, v2 := DecodeChild(cs[0]).value, DecodeChild(cs[1]).value;
    var acc1 := [(k, v1)];
    var acc2 := [(k, VArr(ListEntries([v1, v2])))];
    assert Collect([], k, v1) == Ok(acc1) by {
      CollectFirst(k, v1);
    }
    assert Collect(acc1, k, v2) == Ok(acc2) by {
      DecodedKeysAreStrings(cs[0]);
      CollectSecondOfOne(k, v1, v2);
    }
    DecodeChildrenStep([], cs, k, acc1);
    var tail := cs[1..];
    assert tail[0] == cs[1] && tail[1..] == cs[2..];
    DecodeChildrenStep(acc1, tail, k, acc2);
  }

  /** The first occurrence of a key in an empty array is stored as it is. */
  lemma CollectFirst(k: Key, v: Value)
    ensures Collect([], k, v) == Ok([(k, v)])
  {
    assert Put([], k, v) == [(k, v)];
  }

  /** The second occurrence of the only key, holding a non-list, makes a two-element list. */
  lemma CollectSecondOfOne(k: Key, v1: Value, v2: Value)
    requires v1 != VNull && Index(v1, KInt(0)).None?
    ensures Collect([(k, v1)], k, v2) == Ok([(k, VArr(ListEntries([v1, v2])))])
  {
    var acc := [(k, v1)];
    assert Get(acc, k) == Some(v1);
    CollectSecond(acc, k, v1, v2);
    assert Put(acc, k, VArr(ListEntries([v1, v2]))) == [(k, VArr(ListEntries([v1, v2])))];
  }

  /** The decoded values of two or more children: the first two, then the rest. */
  lemma {:induction false} ChildValuesFirstTwo(cs: seq<Element>)
    requires |cs| >= 2 && AllDecode(cs)
    ensures AllDecode(cs[2..])
    ensures ChildValues(cs) == [DecodeChild(cs[0]).value, DecodeChild(cs[1]).value] + ChildValues(cs[2..])
  {
    AllDecodeTail(cs);
    var tail := cs[1..];
    AllDecodeTail(tail);
    assert tail[1..] == cs[2..];
    var v1, v2 := DecodeChild(cs[0]).value, DecodeChild(cs[1]).value;
    var rest := ChildValues(cs[2..]);
    ChildValuesCons(tail);
    ChildValuesCons(cs);
    assert [v1] + ([v2] + rest) == [v1, v2] + rest;
  }

  /** The decoded values of non-empty children: the first, then the rest. */
  lemma {:induction false} ChildValuesCons(cs: seq<Element>)
    requires cs != [] && AllDecode(cs)
    ensures AllDecode(cs[1..])
    ensures ChildValues(cs) == [DecodeChild(cs[0]).value] + ChildValues(cs[1..])
  {
    AllDecodeTail(cs);
  }

  /** A single child stays unwrapped. */
  lemma SingleChildUnwrapped(e: Element)
    requires e.attrs == [] && |e.children| == 1 && DecodeChild(e.children[0]).Ok?
    ensures DecodeElement(e) == Ok(VArr([(KStr(ToSnakeCase(e.children[0].name)), DecodeChild(e.children[0]).value)]))
  {
    DecodeStartShape(e.attrs);
    var c := e.children[0];
    var k := KStr(ToSnakeCase(c.name));
    var acc := Put([], k, DecodeChild(c).value);
    assert acc == [(k, DecodeChild(c).value)];
    DecodeChildrenStep([], e.children, k, acc);
    assert e.children[1..] == [];
  }

  /**
   * Two same-named text children, the first non-empty, end in an `Error`: `isset` on the
   * first text's offset 0 holds, so it is never wrapped, and `[]` on a string fails.
   */
  lemma RepeatedTextSiblingsFail(acc: Entries, c1: Element, c2: Element, rest: seq<Element>)
    requires !Structured(c1) && !Structured(c2) && c1.name == c2.name && c1.text != ""
    requires !IsSet(acc, KStr(ToSnakeCase(c1.name)))
    ensures DecodeChildren(acc, [c1, c2] + rest) == Fail(AppendToString)
  {
    var cs := [c1, c2] + rest;
    var k := KStr(ToSnakeCase(c1.name));
    assert cs[0] == c1 && cs[1..][0] == c2;
    var acc1 := Put(acc, k, VStr(c1.text));
    DecodeChildrenStep(acc, cs, k, acc1);
    assert Get(acc1, k) == Some(VStr(c1.text));
    assert Index(VStr(c1.text), KInt(0)).Some?;
    assert Collect(acc1, k, VStr(c2.text)) == Fail(AppendToString);
  }

  /** At the top level that `Error` escapes `qbxmlToArray`. */
  lemma RepeatedTextSiblingsCrash(root: Element)
    requires root.attrs == [] && |root.children| >= 2
    requires !Structured(root.children[0]) && !Structured(root.children[1])
    requires root.children[0].name == root.children[1].name && root.children[0].text != ""
    ensures QbxmlToArray(WellFormed(root)) == Crashed(AppendToString)
  {
    DecodeStartShape(root.attrs);
    assert root.children == [root.children[0], root.children[1]] + root.children[2..];
    RepeatedTextSiblingsFail([], root.children[0], root.children[1], root.children[2..]);
  }
}
