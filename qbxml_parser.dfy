/**
 * The QBXML codec: request arrays to element trees (`arrayToXml`) and element trees
 * back to arrays (`xmlToArray`), with the request envelope (`wrapRequest`) and
 * `createRequest`. Elements are SimpleXML's view of a document; lexing and printing
 * the XML text is SimpleXML's own work and is not part of this model.
 */
module QbxmlParser {
  import opened Wrappers
  import opened Text
  import opened Php
  import opened QbxmlNames

  /** An element as SimpleXML presents it: name, attributes in document order, child elements and text content. */
  datatype Element = Element(name: string, attrs: seq<(string, string)>, children: seq<Element>, text: string)

  /** A parsed document, or the parser's refusal of the text. */
  datatype Document = Malformed | WellFormed(root: Element)

  /**
   * The PHP `Error`s the codec can raise. They are not `Exception`s, so the
   * `catch (\Exception)` blocks of the connector let them through.
   */
  datatype Fault =
    | KeyNotString    // TypeError: an integer key reaches a string parameter under strict_types
    | EmptyName       // ValueError: SimpleXML refuses an empty element or attribute name
    | AppendToString  // Error: `[]` applied to a non-empty string
    | TextNotArray    // TypeError: a string returned where the declared return type is array
    | UnsetOffset     // Error: `unset()` of an offset of a string
    | ArgumentType    // TypeError: a value of the wrong type passed to a typed parameter

  datatype Outcome<T> = Ok(value: T) | Fail(fault: Fault)

  function Leaf(name: string, text: string): Element
  {
    Element(name, [], [], text)
  }

  function AddChild(el: Element, child: Element): (r: Element)
    ensures r.name == el.name && r.attrs == el.attrs && r.text == el.text
    ensures r.children == el.children + [child]
  {
    el.(children := el.children + [child])
  }

  // ---------------------------------------------------------------------------
  // Text escaping

  /** `htmlspecialchars($s, ENT_XML1)`: '&', '<' and '>' become entity references; quotes stay. */
  function Escape(s: string): string
  {
    if s == [] then [] else EscapeChar(s[0]) + Escape(s[1..])
  }

  function EscapeChar(c: char): string
  {
    if c == '&' then "&amp;" else if c == '<' then "&lt;" else if c == '>' then "&gt;" else [c]
  }

  /**
   * The entity references that `addChild` resolves in the text it is given (only the
   * three that `Escape` produces are modelled); other characters are kept.
   */
  function Unescape(s: string): string
  {
    if s == [] then []
    else if |s| >= 5 && s[..5] == "&amp;" then "&" + Unescape(s[5..])
    else if |s| >= 4 && s[..4] == "&lt;" then "<" + Unescape(s[4..])
    else if |s| >= 4 && s[..4] == "&gt;" then ">" + Unescape(s[4..])
    else [s[0]] + Unescape(s[1..])
  }

  /** Escaping is undone by the entity resolution: the text stored is the text given. */
  lemma {:induction false} UnescapeEscape(s: string)
    ensures Unescape(Escape(s)) == s
  {
    if s != [] {
      UnescapeEscape(s[1..]);
      var e := EscapeChar(s[0]);
      var t := Escape(s[1..]);
      assert Escape(s) == e + t;
      assert (e + t)[|e|..] == t;
      if s[0] == '&' {
        assert (e + t)[..5] == "&amp;";
      } else if s[0] == '<' {
        assert (e + t)[..4] == "&lt;";
        assert |e + t| >= 5 ==> (e + t)[..5][1] == 'l';
      } else if s[0] == '>' {
        assert (e + t)[..4] == "&gt;";
        assert (e + t)[..4][1] == 'g';
        assert |e + t| >= 5 ==> (e + t)[..5][1] == 'g';
      } else {
        assert (e + t)[0] == s[0];
        assert |e + t| >= 4 ==> (e + t)[..4][0] == s[0];
        assert |e + t| >= 5 ==> (e + t)[..5][0] == s[0];
      }
    }
  }

  /** Entity reference starting at `i`. */
  predicate EntityAt(s: string, i: nat)
    requires i < |s|
  {
    (i + 5 <= |s| && s[i..i + 5] == "&amp;") ||
    (i + 4 <= |s| && (s[i..i + 4] == "&lt;" || s[i..i + 4] == "&gt;"))
  }

  /**
   * Escaped text is legal character data in the sense of section 2.4 of the XML 1.0
   * recommendation: no '<' at all, and every '&' starts an entity reference.
   */
  lemma {:induction false} EscapeIsCharData(s: string)
    ensures '<' !in Escape(s) && '>' !in Escape(s)
    ensures forall i :: 0 <= i < |Escape(s)| && Escape(s)[i] == '&' ==> EntityAt(Escape(s), i)
  {
    if s != [] {
      EscapeIsCharData(s[1..]);
      var e, t := EscapeChar(s[0]), Escape(s[1..]);
      assert Escape(s) == e + t;
      forall i | 0 <= i < |e + t| && (e + t)[i] == '&' ensures EntityAt(e + t, i) {
        if i < |e| {
          assert (e + t)[..|e|] == e;
        } else {
          EntityShift(e, t, i - |e|);
        }
      }
    }
  }

  /** An entity reference in `t` is still one after a prefix. */
  lemma EntityShift(e: string, t: string, i: nat)
    requires i < |t| && EntityAt(t, i)
    ensures EntityAt(e + t, |e| + i)
  {
    var r := e + t;
    assert r[|e|..] == t;
    if i + 5 <= |t| { assert r[|e| + i..|e| + i + 5] == t[i..i + 5]; }
    if i + 4 <= |t| { assert r[|e| + i..|e| + i + 4] == t[i..i + 4]; }
  }

  // ---------------------------------------------------------------------------
  // Encoder: arrays to elements (arrayToXml)

  /** `isNumericArray`: non-empty, with keys exactly 0..n-1 in order. */
  predicate IsNumericArray(es: Entries)
  {
    es != [] && IsListKeys(es)
  }

  predicate HasAttribute(attrs: seq<(string, string)>, name: string)
  {
    exists j :: 0 <= j < |attrs| && attrs[j].0 == name
  }

  /** `$xml->addAttribute($k, (string) $v)`; an existing attribute is left as it is (SimpleXML warns). */
  function AddAttribute(el: Element, k: Key, v: Value): (r: Outcome<Element>)
    ensures r.Ok? ==> r.value.name == el.name && r.value.text == el.text && r.value.children == el.children
  {
    match k
    case KInt(_) => Fail(KeyNotString)
    case KStr(name) =>
      if name == "" then Fail(EmptyName)
      else if HasAttribute(el.attrs, name) then Ok(el)
      else Ok(el.(attrs := el.attrs + [(name, ToStr(v))]))
  }

  /** The attribute loop over `$value` from position `i` on. */
  function AddAttributes(el: Element, attrs: Entries, i: nat): (r: Outcome<Element>)
    ensures r.Ok? ==> r.value.name == el.name && r.value.text == el.text && r.value.children == el.children
    decreases |attrs| - i
  {
    if i >= |attrs| then Ok(el)
    else match AddAttribute(el, attrs[i].0, attrs[i].1)
      case Fail(f) => Fail(f)
      case Ok(el') => AddAttributes(el', attrs, i + 1)
  }

  /** The main loop of `arrayToXml($data, $xml)` from entry `i` on. */
  function EncodeInto(el: Element, data: Entries, i: nat): (r: Outcome<Element>)
    ensures r.Ok? ==> r.value.name == el.name && r.value.text == el.text
    decreases VArr(data), 0, |data| - i
  {
    if i >= |data| then Ok(el)
    else
      assert data[i] in VArr(data).entries;
      match EncodeEntry(el, data[i].0, data[i].1)
      case Fail(f) => Fail(f)
      case Ok(el') => EncodeInto(el', data, i + 1)
  }

  /** One iteration of the main loop of `arrayToXml`, for key `k` and value `v`. */
  function EncodeEntry(el: Element, k: Key, v: Value): (r: Outcome<Element>)
    ensures r.Ok? ==> r.value.name == el.name && r.value.text == el.text
    decreases v, 1, 0
  {
    if k == KStr("xml_attributes") then
      (if v.VArr? then AddAttributes(el, v.entries, 0) else Ok(el))
    else match k
      case KInt(_) => Fail(KeyNotString)
      case KStr(key) =>
        var name := ToPascalCase(key);
        match v
        case VArr(es) =>
          if IsNumericArray(es) then EncodeItems(el, name, es, 0)
          else if name == "" then Fail(EmptyName)
          else
            (match EncodeInto(Leaf(name, ""), es, 0)
             case Fail(f) => Fail(f)
             case Ok(child) => Ok(AddChild(el, child)))
        case _ =>
          if name == "" then Fail(EmptyName)
          else Ok(AddChild(el, Leaf(name, Unescape(Escape(ToStr(v))))))
  }

  /** The loop over the items of a numeric array: one sibling element per item. */
  function EncodeItems(el: Element, name: string, items: Entries, i: nat): (r: Outcome<Element>)
    ensures r.Ok? ==> r.value.name == el.name && r.value.text == el.text && r.value.attrs == el.attrs
    decreases VArr(items), 0, |items| - i
  {
    if i >= |items| then Ok(el)
    else if name == "" then Fail(EmptyName)
    else
      assert items[i] in VArr(items).entries;
      var item := items[i].1;
      match EncodeItem(name, item)
      case Fail(f) => Fail(f)
      case Ok(child) => EncodeItems(AddChild(el, child), name, items, i + 1)
  }

  /** The sibling element for one list item: nested for an array, text otherwise. */
  function EncodeItem(name: string, item: Value): (r: Outcome<Element>)
    ensures r.Ok? ==> r.value.name == name
    decreases item, 1, 0
  {
    match item
    case VArr(es) => EncodeInto(Leaf(name, ""), es, 0)
    case _ => Ok(Leaf(name, ToStr(item)))
  }

  /** `arrayToXml($data, $xml)`, building the element in the loops of the source. */
  method ArrayToXml(data: Entries, xml: Element) returns (r: Outcome<Element>)
    ensures r == EncodeInto(xml, data, 0)
    decreases VArr(data)
  {
    var el := xml;
    var i := 0;
    while i < |data|
      invariant 0 <= i <= |data|
      invariant EncodeInto(el, data, i) == EncodeInto(xml, data, 0)
      decreases |data| - i
    {
      assert data[i] in VArr(data).entries;
      var key, value := data[i].0, data[i].1;
      ghost var before := el;
      if key == KStr("xml_attributes") {
        if value.VArr? {
          var j := 0;
          while j < |value.entries|
            invariant 0 <= j <= |value.entries|
            invariant AddAttributes(el, value.entries, j) == EncodeEntry(before, key, value)
            decreases |value.entries| - j
          {
            var step := AddAttribute(el, value.entries[j].0, value.entries[j].1);
            if step.Fail? {
              return Fail(step.fault);
            }
            el := step.value;
            j := j + 1;
          }
        }
      } else if key.KInt? {
        return Fail(KeyNotString);
      } else {
        var name := ToPascalCase(key.s);
        if value.VArr? {
          if IsNumericArray(value.entries) {
            var j := 0;
            while j < |value.entries|
              invariant 0 <= j <= |value.entries|
              invariant EncodeItems(el, name, value.entries, j) == EncodeEntry(before, key, value)
              decreases |value.entries| - j
            {
              if name == "" {
                return Fail(EmptyName);
              }
              assert value.entries[j] in value.entries;
              var item := value.entries[j].1;
              var child;
              if item.VArr? {
                var built := ArrayToXml(item.entries, Leaf(name, ""));
                if built.Fail? {
                  return Fail(built.fault);
                }
                child := built.value;
              } else {
                child := Leaf(name, ToStr(item));
              }
              el := AddChild(el, child);
              j := j + 1;
            }
          } else {
            if name == "" {
              return Fail(EmptyName);
            }
            var built := ArrayToXml(value.entries, Leaf(name, ""));
            if built.Fail? {
              return Fail(built.fault);
            }
            el := AddChild(el, built.value);
          }
        } else {
          if name == "" {
            return Fail(EmptyName);
          }
          el := AddChild(el, Leaf(name, Unescape(Escape(ToStr(value)))));
        }
      }
      i := i + 1;
    }
    return Ok(el);
  }

  // ---------------------------------------------------------------------------
  // Decoder: elements to arrays (xmlToArray)

  /** The attribute loop of `xmlToArray`: `$attributes[$key] = (string) $value` in order. */
  function AttributeEntries(attrs: seq<(string, string)>): (r: Entries)
    ensures |r| <= |attrs|
    ensures attrs != [] ==> r != []
  {
    if attrs == [] then []
    else
      var last := attrs[|attrs| - 1];
      Put(AttributeEntries(attrs[..|attrs| - 1]), KStr(last.0), VStr(last.1))
  }

  /** `$result` before the children loop: `xml_attributes` when there are any attributes. */
  function DecodeStart(attrs: seq<(string, string)>): Entries
  {
    var attributes := AttributeEntries(attrs);
    if attributes == [] then [] else Put([], KStr("xml_attributes"), VArr(attributes))
  }

  /** `$result[$k][] = $v`: an array grows by one entry; on a string `[]` is an `Error`. */
  function AppendAt(acc: Entries, k: Key, v: Value): Outcome<Entries>
  {
    match Get(acc, k)
    case Some(VArr(es)) => Ok(Put(acc, k, VArr(Append(es, v))))
    case _ => Fail(AppendToString)
  }

  /**
   * Storing one decoded child under key `k`: a first occurrence is stored as it is; a
   * repeated one is appended, after wrapping the earlier value in a list when
   * `isset($result[$k][0])` does not hold for it.
   */
  function Collect(acc: Entries, k: Key, v: Value): Outcome<Entries>
  {
    if IsSet(acc, k) then
      var cur := Get(acc, k).value;
      var promoted := if Index(cur, KInt(0)).None? then Put(acc, k, VArr([(KInt(0), cur)])) else acc;
      AppendAt(promoted, k, v)
    else Ok(Put(acc, k, v))
  }

  /** The children loop of `xmlToArray`, from `acc` on, over the children `cs`. */
  function DecodeChildren(acc: Entries, cs: seq<Element>): Outcome<Entries>
    decreases cs, 0
  {
    if cs == [] then Ok(acc)
    else match DecodeChild(cs[0])
      case Fail(f) => Fail(f)
      case Ok(v) =>
        (match Collect(acc, KStr(ToSnakeCase(cs[0].name)), v)
         case Fail(f) => Fail(f)
         case Ok(acc') => DecodeChildren(acc', cs[1..]))
  }

  /** A child's value: decoded recursively when it has children or attributes, else its text. */
  function DecodeChild(c: Element): Outcome<Value>
    decreases c, 1
  {
    if c.children != [] || c.attrs != [] then DecodeElement(c) else Ok(VStr(c.text))
  }

  /**
   * `xmlToArray($xml)`. An element with neither attributes nor children would return its
   * text where an array is declared, which strict_types turns into a `TypeError`.
   */
  function DecodeElement(e: Element): (r: Outcome<Value>)
    ensures r.Ok? ==> r.value.VArr? && r.value.entries != []
    decreases e, 0
  {
    match DecodeChildren(DecodeStart(e.attrs), e.children)
    case Fail(f) => Fail(f)
    case Ok(es) => if es == [] then Fail(TextNotArray) else Ok(VArr(es))
  }

  /** `xmlToArray($xml)`, filling `$result` in the loops of the source. */
  method XmlToArray(xml: Element) returns (r: Outcome<Value>)
    ensures r == DecodeElement(xml)
    decreases xml
  {
    var attributes := ReadAttributes(xml.attrs);
    var result: Entries := [];
    if attributes != [] {
      result := Put(result, KStr("xml_attributes"), VArr(attributes));
    }
    var i := 0;
    while i < |xml.children|
      invariant 0 <= i <= |xml.children|
      invariant DecodeChildren(result, xml.children[i..]) == DecodeChildren(DecodeStart(xml.attrs), xml.children)
    {
      var child := xml.children[i];
      assert child in xml.children;
      assert xml.children[i..][1..] == xml.children[i + 1..];
      var childValue;
      if child.children != [] || child.attrs != [] {
        var sub := XmlToArray(child);
        if sub.Fail? {
          return Fail(sub.fault);
        }
        childValue := sub.value;
      } else {
        childValue := VStr(child.text);
      }
      var stored := StoreChild(result, KStr(ToSnakeCase(child.name)), childValue);
      if stored.Fail? {
        return Fail(stored.fault);
      }
      result := stored.value;
      i := i + 1;
    }
    if result == [] {
      return Fail(TextNotArray);
    }
    return Ok(VArr(result));
  }

  /** One more attribute read: its entry is written after those of the attributes before it. */
  lemma AttributeEntriesStep(attrs: seq<(string, string)>, j: nat)
    requires j < |attrs|
    ensures AttributeEntries(attrs[..j + 1]) == Put(AttributeEntries(attrs[..j]), KStr(attrs[j].0), VStr(attrs[j].1))
  {
    var next := attrs[..j + 1];
    assert next[..|next| - 1] == attrs[..j];
  }

  /** The attribute loop of `xmlToArray`. */
  method ReadAttributes(attrs: seq<(string, string)>) returns (attributes: Entries)
    ensures attributes == AttributeEntries(attrs)
  {
    attributes := [];
    var j := 0;
    while j < |attrs|
      invariant 0 <= j <= |attrs|
      invariant attributes == AttributeEntries(attrs[..j])
    {
      AttributeEntriesStep(attrs, j);
      attributes := Put(attributes, KStr(attrs[j].0), VStr(attrs[j].1));
      j := j + 1;
    }
    assert attrs[..|attrs|] == attrs;
  }

  /** Storing a decoded child, promoting an earlier value to a list in place. */
  method StoreChild(result: Entries, key: Key, childValue: Value) returns (r: Outcome<Entries>)
    ensures r == Collect(result, key, childValue)
  {
    var acc := result;
    if IsSet(acc, key) {
      var cur := Get(acc, key).value;
      if Index(cur, KInt(0)).None? {
        acc := Put(acc, key, VArr([(KInt(0), cur)]));
      }
      var list := Get(acc, key);
      if !(list.Some? && list.value.VArr?) {
        return Fail(AppendToString);
      }
      acc := Put(acc, key, VArr(Append(list.value.entries, childValue)));
    } else {
      acc := Put(acc, key, childValue);
    }
    return Ok(acc);
  }

  // ---------------------------------------------------------------------------
  // Entry points

  /** The outcome of `qbxmlToArray`: the array, a `RuntimeException`, or an uncaught `Error`. */
  datatype Decoding = Decoded(data: Entries) | Raised(message: string) | Crashed(fault: Fault)

  /** The message of the exception SimpleXML raises on text that is not well-formed XML. */
  const NotXmlMessage := "String could not be parsed as XML"

  /** `qbxmlToArray`, given the parser's view of the text. */
  function QbxmlToArray(doc: Document): (r: Decoding)
    ensures r.Decoded? ==> r.data != []
  {
    match doc
    case Malformed => Raised("Failed to parse QBXML: " + NotXmlMessage)
    case WellFormed(root) =>
      (match DecodeElement(root)
       case Fail(f) => Crashed(f)
       case Ok(v) => Decoded(v.entries))
  }

  /** `validateQbxml`: whether SimpleXML accepts the text. */
  predicate ValidateQbxml(doc: Document)
  {
    doc.WellFormed?
  }

  /** Validation fails exactly when decoding raises the wrapped parse exception. */
  lemma ValidateMatchesDecode(doc: Document)
    ensures !ValidateQbxml(doc) <==> QbxmlToArray(doc).Raised?
    ensures QbxmlToArray(doc).Raised? ==> QbxmlToArray(doc).message == "Failed to parse QBXML: String could not be parsed as XML"
  {
  }

  /** The `onError` attribute value for the configured error policy. */
  function OnError(continueOnError: bool): string
  {
    if continueOnError then "continueOnError" else "stopOnError"
  }

  /** `wrapRequest`, with `getContinueOnError()` passed in. */
  function WrapRequest(request: Entries, continueOnError: bool): Entries
  {
    if IsSet(request, KStr("qbxml")) || IsSet(request, KStr("QBXML")) then request
    else if IsSet(request, KStr("qbxml_msgs_rq")) || IsSet(request, KStr("QBXMLMsgsRq")) then
      [(KStr("qbxml"), VArr(request))]
    else
      var header := [(KStr("xml_attributes"), VArr([(KStr("onError"), VStr(OnError(continueOnError)))]))];
      [(KStr("qbxml"), VArr([(KStr("qbxml_msgs_rq"), VArr(ArrayMerge(header, request)))]))]
  }

  /** The root element that `arrayToQbxml` starts from. */
  const QbxmlRoot := Element("QBXML", [], [], "")

  /** `arrayToQbxml` up to printing: the element tree of the wrapped request. */
  function ArrayToQbxml(data: Entries, continueOnError: bool): Outcome<Element>
  {
    EncodeInto(QbxmlRoot, WrapRequest(data, continueOnError), 0)
  }

  /** `createRequest`: one request keyed by its type, carrying the attributes when there are any. */
  function CreateRequest(requestType: string, data: Entries, attributes: Entries): (r: Entries)
    ensures |r| == 1 && r[0].0 == KStr(requestType) && r[0].1.VArr?
    ensures attributes == [] ==> r[0].1.entries == data
    ensures attributes != [] ==> Get(r[0].1.entries, KStr("xml_attributes")) == Some(VArr(attributes))
    ensures forall k :: k != KStr("xml_attributes") ==> Get(r[0].1.entries, k) == Get(data, k)
  {
    var body := if attributes == [] then data else Put(data, KStr("xml_attributes"), VArr(attributes));
    [(KStr(requestType), VArr(body))]
  }
}
