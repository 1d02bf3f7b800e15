/** `normalizeToString`: turns any JavaScript value into display text by a
    first-match-wins chain of type tests. */
module Normalize {
  import opened Wrappers
  import opened JsValues
  import Decimal

  /** The branch of the dispatch chain a value takes, in source order. */
  datatype Branch =
    | NullishBranch     // null or undefined
    | PrimitiveBranch   // typeof string, number or boolean
    | DateBranch        // instanceof Date
    | TextFieldBranch   // an object with a string `text` property
    | RichTextBranch    // an object with an array `richText` property
    | SerializeBranch   // any other object: JSON.stringify
    | OpaqueBranch      // typeof symbol, bigint or function
    | DefaultBranch     // the final `return ""`

  /** The chain of tests exactly as the source orders them. */
  function TakenBranch(v: JsValue): Branch {
    if v == Null || v == Undefined then NullishBranch
    else if TypeOf(v) == "string" || TypeOf(v) == "number" || TypeOf(v) == "boolean" then PrimitiveBranch
    else if v.Date? then DateBranch
    else if TypeOf(v) == "object" then
      if IsTruthy(v) && Get(v, "text").Str? then TextFieldBranch
      else if IsTruthy(v) && HasProperty(v, "richText") && Get(v, "richText").Arr? then RichTextBranch
      else SerializeBranch
    else if TypeOf(v) == "symbol" || TypeOf(v) == "bigint" || TypeOf(v) == "function" then OpaqueBranch
    else DefaultBranch
  }

  /** How a call ends: a returned text, or an exception that escapes. */
  datatype Outcome = Returned(text: string) | Threw(error: JsError)
  datatype JsError = RangeError

  /** `String(n)` for a number. */
  function NumberText(h: Host, n: Number): string {
    match n
    case NaN => "NaN"
    case Infinity(negative) => if negative then "-Infinity" else "Infinity"
    case Finite(x) => h.finiteNumberText(x)
  }

  /** `String(v)` for a string, number or boolean. */
  function PrimitiveText(h: Host, v: JsValue): string
    requires v.Str? || v.Num? || v.Bool?
  {
    match v
    case Str(s) => s
    case Num(n) => NumberText(h, n)
    case Bool(b) => if b then "true" else "false"
  }

  /** `String(v)` for a symbol, BigInt or function; `None` when it throws.
      Only a function's conversion can throw (through a `toString` that throws). */
  function OpaqueText(h: Host, v: JsValue): Option<string>
    requires v.Symbol? || v.BigInt? || v.Func?
  {
    match v
    case Symbol(d) => Some("Symbol(" + d.GetOr("") + ")")
    case BigInt(i) => Some(Decimal.BigIntText(i))
    case Func(id, _) => h.functionText(id)
  }

  /** The text one rich-text span contributes: its `text` when the span is
      truthy and that property is a string, otherwise "". */
  function SpanText(t: JsValue): string {
    if IsTruthy(t) && Get(t, "text").Str? then Get(t, "text").s else ""
  }

  /** `spans.map(SpanText)`. */
  function SpanTexts(spans: seq<JsValue>): (pieces: seq<string>)
    ensures |pieces| == |spans|
    ensures forall k :: 0 <= k < |spans| ==> pieces[k] == SpanText(spans[k])
  {
    seq(|spans|, k requires 0 <= k < |spans| => SpanText(spans[k]))
  }

  /** `pieces.join("")`. */
  function Join(pieces: seq<string>): string {
    if pieces == [] then "" else pieces[0] + Join(pieces[1..])
  }

  /** The total length of a list of texts. */
  function TotalLength(pieces: seq<string>): nat {
    if pieces == [] then 0 else |pieces[0]| + TotalLength(pieces[1..])
  }

  /** The whole function as written, including the one exception it lets
      escape: `toISOString` on an Invalid Date throws a RangeError. */
  function NormalizeAsWritten(h: Host, v: JsValue): Outcome {
    match TakenBranch(v)
    case NullishBranch => Returned("")
    case PrimitiveBranch => Returned(PrimitiveText(h, v))
    case DateBranch =>
      if v.time.Some? then Returned(h.isoText(v.time.value)) else Threw(RangeError)
    case TextFieldBranch => Returned(Get(v, "text").s)
    case RichTextBranch => Returned(Join(SpanTexts(Get(v, "richText").elems)))
    case SerializeBranch => Returned(h.jsonText(v).GetOr(""))
    case OpaqueBranch => Returned(OpaqueText(h, v).GetOr(""))
    case DefaultBranch => Returned("")
  }

  /** `normalizeToString` with the date conversion guarded like the other
      conversions, so that no exception escapes. */
  function NormalizeToString(h: Host, v: JsValue): string {
    match NormalizeAsWritten(h, v)
    case Returned(s) => s
    case Threw(_) => ""
  }

  // ---------------------------------------------------------------------
  // The dispatch

  /** Every value is matched by one of the seven real branches; the final
      `return ""` of the chain is unreachable. */
  lemma DefaultUnreachable(v: JsValue)
    ensures TakenBranch(v) != DefaultBranch
    ensures TakenBranch(v) == OpaqueBranch <==> v.Symbol? || v.BigInt? || v.Func?
    ensures TakenBranch(v) == PrimitiveBranch <==> v.Str? || v.Num? || v.Bool?
    ensures TakenBranch(v) == NullishBranch <==> v.Null? || v.Undefined?
  {
  }

  /** A Date is an object (`typeof` says so), yet the `instanceof Date` test
      comes first: a Date never reaches the `text`, `richText` or JSON cases. */
  lemma DateBeforeObject(h: Host, v: JsValue)
    requires v.Date?
    ensures TypeOf(v) == "object"
    ensures TakenBranch(v) == DateBranch
    ensures v.time.Some? ==> NormalizeToString(h, v) == h.isoText(v.time.value)
  {
  }

  /** Objects and arrays: which of the three object cases applies. */
  lemma ObjectCases(v: JsValue)
    requires v.Obj? || v.Arr?
    ensures TakenBranch(v) in {TextFieldBranch, RichTextBranch, SerializeBranch}
    ensures TakenBranch(v) == TextFieldBranch <==> Get(v, "text").Str?
    ensures TakenBranch(v) == RichTextBranch <==> !Get(v, "text").Str? && Get(v, "richText").Arr?
  {
  }

  // ---------------------------------------------------------------------
  // What each kind of value gives

  lemma NullishIsEmpty(h: Host, v: JsValue)
    requires v.Null? || v.Undefined?
    ensures NormalizeToString(h, v) == ""
  {
  }

  /** A string comes back unchanged, and so normalizing twice is the same as
      normalizing once. */
  lemma StringPassThrough(h: Host, s: string, v: JsValue)
    ensures NormalizeToString(h, Str(s)) == s
    ensures NormalizeToString(h, Str(NormalizeToString(h, v))) == NormalizeToString(h, v)
  {
  }

  lemma PrimitiveCanonical(h: Host, v: JsValue)
    requires v.Num? || v.Bool?
    ensures v.Num? ==> NormalizeToString(h, v) == NumberText(h, v.n)
    ensures v == Bool(true) ==> NormalizeToString(h, v) == "true"
    ensures v == Bool(false) ==> NormalizeToString(h, v) == "false"
    ensures v == Num(NaN) ==> NormalizeToString(h, v) == "NaN"
  {
  }

  /** A string `text` property is returned verbatim, whatever `richText`
      the same object carries. */
  lemma TextFieldWins(h: Host, v: JsValue)
    requires v.Obj? || v.Arr?
    requires Get(v, "text").Str?
    ensures NormalizeToString(h, v) == Get(v, "text").s
  {
  }

  /** Without a string `text`, an array `richText` gives the spans' texts
      joined in order. */
  lemma RichTextJoined(h: Host, v: JsValue)
    requires v.Obj? || v.Arr?
    requires !Get(v, "text").Str? && Get(v, "richText").Arr?
    ensures NormalizeToString(h, v) == Join(SpanTexts(Get(v, "richText").elems))
    ensures |NormalizeToString(h, v)| == TotalLength(SpanTexts(Get(v, "richText").elems))
    ensures Get(v, "richText").elems == [] ==> NormalizeToString(h, v) == ""
  {
    JoinLength(SpanTexts(Get(v, "richText").elems));
  }

  /** Any other object or array gives the serializer's text, or "" when
      the serializer throws; nothing propagates. */
  lemma OtherObjectSerialized(h: Host, v: JsValue)
    requires v.Obj? || v.Arr?
    requires !Get(v, "text").Str? && !Get(v, "richText").Arr?
    ensures h.jsonText(v).Some? ==> NormalizeToString(h, v) == h.jsonText(v).value
    ensures h.jsonText(v).None? ==> NormalizeToString(h, v) == ""
  {
  }

  /** An array is an object to `typeof`: with neither property it is
      serialized, never treated as a list of spans. */
  lemma PlainArraySerialized(h: Host, elems: seq<JsValue>)
    ensures NormalizeToString(h, Arr(elems, map[])) == h.jsonText(Arr(elems, map[])).GetOr("")
  {
  }

  /** Symbols, BigInts and functions give their text conversion, or "" when
      that conversion throws. */
  lemma OpaqueConverted(h: Host, v: JsValue)
    requires v.Symbol? || v.BigInt? || v.Func?
    ensures v.Symbol? ==> NormalizeToString(h, v) == "Symbol(" + v.description.GetOr("") + ")"
    ensures v.BigInt? ==> NormalizeToString(h, v) == Decimal.BigIntText(v.i)
    ensures v.Func? && h.functionText(v.id).Some? ==> NormalizeToString(h, v) == h.functionText(v.id).value
    ensures v.Func? && h.functionText(v.id).None? ==> NormalizeToString(h, v) == ""
  {
  }

  /** The rich-text record `{richText: [{text: "a"}, {text: "b"}, {}]}`: the
      empty span is truthy but has no string `text`, so it adds nothing. */
  lemma RichTextExample(h: Host)
    ensures NormalizeToString(h, Obj(map["richText" := Arr([
      Obj(map["text" := Str("a")]), Obj(map["text" := Str("b")]), Obj(map[])], map[])])) == "ab"
  {
    var spans := [Obj(map["text" := Str("a")]), Obj(map["text" := Str("b")]), Obj(map[])];
    assert SpanTexts(spans) == ["a", "b", ""];
    assert Join(["a", "b", ""]) == "a" + ("b" + ("" + Join([])));
  }

  // ---------------------------------------------------------------------
  // The escaping RangeError, and the corrected function

  /** As written, the function is total except on one input: an Invalid Date
      makes `toISOString` throw, and nothing catches it. */
  lemma AsWrittenThrowsOnlyOnInvalidDate(h: Host, v: JsValue)
    ensures NormalizeAsWritten(h, v).Threw? <==> v.Date? && v.time.None?
  {
  }

  /** The corrected function agrees with the source everywhere the source
      returns, and gives "" for an Invalid Date, as for every other failed
      conversion. */
  lemma CorrectedNeverThrows(h: Host, v: JsValue)
    ensures !(v.Date? && v.time.None?) ==> NormalizeAsWritten(h, v) == Returned(NormalizeToString(h, v))
    ensures v.Date? && v.time.None? ==> NormalizeToString(h, v) == ""
  {
    AsWrittenThrowsOnlyOnInvalidDate(h, v);
  }

  // ---------------------------------------------------------------------
  // Joining span texts

  lemma {:induction false} JoinLength(pieces: seq<string>)
    ensures |Join(pieces)| == TotalLength(pieces)
  {
    if pieces != [] {
      JoinLength(pieces[1..]);
    }
  }

  lemma {:induction false} JoinAppend(a: seq<string>, b: seq<string>)
    ensures Join(a + b) == Join(a) + Join(b)
  {
    if a == [] {
      assert a + b == b;
    } else {
      assert (a + b)[1..] == a[1..] + b;
      JoinAppend(a[1..], b);
    }
  }

  /** Order is kept: piece `k` sits in the joined text right after the pieces
      before it. */
  lemma JoinPlacement(pieces: seq<string>, k: nat)
    requires k < |pieces|
    ensures TotalLength(pieces[..k]) + |pieces[k]| <= |Join(pieces)|
    ensures Join(pieces)[TotalLength(pieces[..k])..TotalLength(pieces[..k]) + |pieces[k]|] == pieces[k]
  {
    assert pieces == pieces[..k] + [pieces[k]] + pieces[k + 1..];
    JoinAppend(pieces[..k] + [pieces[k]], pieces[k + 1..]);
    JoinAppend(pieces[..k], [pieces[k]]);
    assert Join([pieces[k]]) == pieces[k] + Join([]);
    JoinLength(pieces[..k]);
  }

  /** A span whose `text` is a string contributes exactly that text, at its
      place in the result; a falsy span, or one without a string `text`,
      contributes nothing. */
  lemma RichTextSpan(h: Host, v: JsValue, k: nat)
    requires v.Obj? || v.Arr?
    requires !Get(v, "text").Str? && Get(v, "richText").Arr?
    requires k < |Get(v, "richText").elems|
    ensures var spans := Get(v, "richText").elems;
            var pieces := SpanTexts(spans);
            var at := TotalLength(pieces[..k]);
            at + |pieces[k]| <= |NormalizeToString(h, v)| &&
            NormalizeToString(h, v)[at..at + |pieces[k]|] == pieces[k]
    ensures var t := Get(v, "richText").elems[k];
            Get(t, "text").Str? ==> SpanTexts(Get(v, "richText").elems)[k] == Get(t, "text").s
    ensures !IsTruthy(Get(v, "richText").elems[k]) ==> SpanTexts(Get(v, "richText").elems)[k] == ""
    ensures !Get(Get(v, "richText").elems[k], "text").Str? ==> SpanTexts(Get(v, "richText").elems)[k] == ""
  {
    JoinPlacement(SpanTexts(Get(v, "richText").elems), k);
  }
}
