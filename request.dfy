/**
 * `Request`: a QBXML request given either as a request array or as QBXML text.
 * Printing an element tree as text (`asXML`) and parsing text into a tree are
 * SimpleXML's work; both are parameters here (`render`, `parse`).
 */
module Requests {
  import opened Wrappers
  import opened Php
  import opened QbxmlParser

  /** What the constructor may be handed: an array, a string or any other PHP value. */
  datatype Input = ArrayInput(data: Entries) | StringInput(text: string) | OtherInput

  /** The two fields the constructor writes: the array (null for text input) and the QBXML text. */
  datatype Request = Request(source: Option<Entries>, qbxml: string)

  /** The constructor's outcome: a request, an `InvalidArgumentException`, or an uncaught codec `Error`. */
  datatype Construction = Built(request: Request) | Invalid(message: string) | Broken(fault: Fault)

  const InvalidInputMessage := "Request must be an array or a string."

  /** The constructor, with `getContinueOnError()` and SimpleXML's printer passed in. */
  function NewRequest(input: Input, continueOnError: bool, render: Element -> string): (r: Construction)
    ensures input.OtherInput? <==> r.Invalid?
    ensures r.Invalid? ==> r.message == InvalidInputMessage
    ensures input.StringInput? ==> r == Built(Request(None, input.text))
    ensures input.ArrayInput? ==> (r.Built? <==> ArrayToQbxml(input.data, continueOnError).Ok?)
  {
    match input
    case ArrayInput(data) =>
      (match ArrayToQbxml(data, continueOnError)
       case Ok(xml) => Built(Request(Some(data), render(xml)))
       case Fail(f) => Broken(f))
    case StringInput(text) => Built(Request(None, text))
    case OtherInput => Invalid(InvalidInputMessage)
  }

  /** `getQbxml` */
  function GetQbxml(r: Request): string
  {
    r.qbxml
  }

  /** `__toString`, an alias of `getQbxml`. */
  function ToString(r: Request): string
  {
    r.qbxml
  }

  /**
   * `toArray`: the array the request was built from; for text, the decoded tree's
   * `qbxml.qbxml_msgs_rq` part without its attributes, or the whole tree when there is none.
   */
  function ToArray(r: Request, parse: string -> Document): (d: Decoding)
    ensures r.source.Some? ==> d == Decoded(r.source.value)
    ensures d.Raised? ==> r.source.None? && d == QbxmlToArray(parse(r.qbxml))
  {
    if r.source.Some? then Decoded(r.source.value)
    else
      match QbxmlToArray(parse(r.qbxml))
      case Decoded(parsed) =>
        (match Dig(VArr(parsed), [KStr("qbxml"), KStr("qbxml_msgs_rq")])
         case None => Decoded(parsed)
         case Some(msgs) =>
           if msgs.VArr? then Decoded(Remove(msgs.entries, KStr("xml_attributes")))
           else Crashed(UnsetOffset))
      case other => other
  }

  /** For an array input the request gives back exactly that array, and its text is the printed tree. */
  lemma ArrayInputRoundTrip(data: Entries, continueOnError: bool, render: Element -> string, parse: string -> Document)
    requires ArrayToQbxml(data, continueOnError).Ok?
    ensures NewRequest(ArrayInput(data), continueOnError, render).Built?
    ensures ToArray(NewRequest(ArrayInput(data), continueOnError, render).request, parse) == Decoded(data)
    ensures GetQbxml(NewRequest(ArrayInput(data), continueOnError, render).request)
         == render(ArrayToQbxml(data, continueOnError).value)
  {
  }

  /** For a string input, `getQbxml` and `__toString` both give the string back verbatim. */
  lemma StringInputVerbatim(text: string, continueOnError: bool, render: Element -> string)
    ensures NewRequest(StringInput(text), continueOnError, render).Built?
    ensures GetQbxml(NewRequest(StringInput(text), continueOnError, render).request) == text
    ensures ToString(NewRequest(StringInput(text), continueOnError, render).request) == text
  {
  }

  /**
   * For a string input, `toArray` is the decoded `qbxml.qbxml_msgs_rq` array without
   * `xml_attributes` when that part is an array, and the whole decoded tree when it is absent.
   */
  lemma StringInputToArray(text: string, continueOnError: bool, render: Element -> string, parse: string -> Document)
    requires QbxmlToArray(parse(text)).Decoded?
    ensures var r := NewRequest(StringInput(text), continueOnError, render).request;
      var parsed := QbxmlToArray(parse(text)).data;
      var msgs := Dig(VArr(parsed), [KStr("qbxml"), KStr("qbxml_msgs_rq")]);
      && (msgs.None? ==> ToArray(r, parse) == Decoded(parsed))
      && (msgs.Some? && msgs.value.VArr? ==>
            && ToArray(r, parse).Decoded?
            && Get(ToArray(r, parse).data, KStr("xml_attributes")).None?
            && forall k :: k != KStr("xml_attributes") ==> Get(ToArray(r, parse).data, k) == Get(msgs.value.entries, k))
  {
  }

  /** The request text of the envelope `arrayToQbxml` builds decodes back to the message set, minus its attributes. */
  lemma EnvelopeToArray(text: string, msgs: Entries, continueOnError: bool, render: Element -> string, parse: string -> Document)
    requires QbxmlToArray(parse(text)) == Decoded([(KStr("qbxml"), VArr([(KStr("qbxml_msgs_rq"), VArr(msgs))]))])
    ensures ToArray(NewRequest(StringInput(text), continueOnError, render).request, parse)
         == Decoded(Remove(msgs, KStr("xml_attributes")))
  {
    var parsed := QbxmlToArray(parse(text)).data;
    assert Index(VArr(parsed), KStr("qbxml")) == Some(VArr([(KStr("qbxml_msgs_rq"), VArr(msgs))]));
  }
}
