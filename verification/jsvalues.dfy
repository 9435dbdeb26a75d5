/**
 * JavaScript values as the scan endpoint handles them, and
 * `convertBigIntToNumber` of packages/hardhat/scripts/server.ts: a
 * structure-preserving walk that turns every bigint into a number.
 */
module JsValues {

  /** Largest integer a JavaScript number holds exactly (`Number.MAX_SAFE_INTEGER`, 2^53 - 1). */
  const MaxSafeInteger: int := 0x1F_FFFF_FFFF_FFFF

  /**
   * A JavaScript number: a finite value, the double nearest to an integer
   * too wide to be held exactly (its rounding is not computed here), or NaN.
   */
  datatype JsNumber = Finite(value: real) | Rounded(exact: int) | NaN

  /** A value of the response tree; an object lists its own properties in enumeration order. */
  datatype JsValue =
    | JNull
    | JUndefined
    | JBool(b: bool)
    | JNumber(n: JsNumber)
    | JString(s: string)
    | JBigInt(i: int)
    | JArray(elems: seq<JsValue>)
    | JObject(props: seq<Prop>)

  datatype Prop = Prop(key: string, value: JsValue)

  predicate IsSafeInteger(n: int) {
    -MaxSafeInteger <= n <= MaxSafeInteger
  }

  /** `Number(n)` for an integer `n`: exact in the safe range. */
  function NumberOfInt(n: int): (r: JsNumber)
    ensures IsSafeInteger(n) ==> r.Finite? && r.value.Floor == n && r.value == n as real
    ensures r != NaN
  {
    if IsSafeInteger(n) then Finite(n as real) else Rounded(n)
  }

  /** The keys of a property list, in order. */
  function Keys(props: seq<Prop>): (r: seq<string>)
    ensures |r| == |props|
  {
    seq(|props|, i requires 0 <= i < |props| => props[i].key)
  }

  /** Whether `v` holds no bigint anywhere. */
  ghost predicate NoBigInt(v: JsValue) {
    match v
    case JBigInt(_) => false
    case JArray(elems) => forall i :: 0 <= i < |elems| ==> NoBigInt(elems[i])
    case JObject(props) => forall i :: 0 <= i < |props| ==> NoBigInt(props[i].value)
    case _ => true
  }

  /**
   * Whether `w` is `v` with every bigint replaced by `Number` of it: same
   * kind at every other node, same array lengths and element order, same
   * object keys in the same order.
   */
  ghost predicate SameShape(v: JsValue, w: JsValue) {
    match v
    case JBigInt(b) => w == JNumber(NumberOfInt(b))
    case JArray(elems) =>
      && w.JArray? && |w.elems| == |elems|
      && forall i :: 0 <= i < |elems| ==> SameShape(elems[i], w.elems[i])
    case JObject(props) =>
      && w.JObject? && Keys(w.props) == Keys(props)
      && forall i :: 0 <= i < |props| ==> SameShape(props[i].value, w.props[i].value)
    case _ => w == v
  }

  /**
   * `convertBigIntToNumber`. The result holds no bigint; a bigint becomes the
   * number of the same value (exactly, in the safe range); arrays keep their
   * length, objects their keys; every other value is returned unchanged.
   */
  function Convert(v: JsValue): (r: JsValue)
    ensures NoBigInt(r)
    ensures v.JBigInt? && IsSafeInteger(v.i) ==> r == JNumber(Finite(v.i as real))
    ensures v.JArray? ==> r.JArray? && |r.elems| == |v.elems|
    ensures v.JObject? ==> r.JObject? && Keys(r.props) == Keys(v.props)
    ensures !v.JBigInt? && !v.JArray? && !v.JObject? ==> r == v
  {
    match v
    case JBigInt(b) => JNumber(NumberOfInt(b))
    case JArray(elems) =>
      JArray(seq(|elems|, i requires 0 <= i < |elems| => Convert(elems[i])))
    case JObject(props) =>
      JObject(seq(|props|, i requires 0 <= i < |props| => Prop(props[i].key, Convert(props[i].value))))
    case _ => v
  }

  /** Converting keeps the shape of the tree, element by element and key by key. */
  lemma {:induction false} ConvertKeepsShape(v: JsValue)
    ensures SameShape(v, Convert(v))
  {
    match v
    case JArray(elems) =>
      forall i | 0 <= i < |elems| ensures SameShape(elems[i], Convert(v).elems[i]) {
        ConvertKeepsShape(elems[i]);
      }
    case JObject(props) =>
      forall i | 0 <= i < |props| ensures SameShape(props[i].value, Convert(v).props[i].value) {
        ConvertKeepsShape(props[i].value);
      }
    case _ =>
  }

  /** A tree without bigints is left exactly as it is. */
  lemma {:induction false} ConvertFixesBigIntFree(v: JsValue)
    requires NoBigInt(v)
    ensures Convert(v) == v
  {
    match v
    case JArray(elems) =>
      forall i | 0 <= i < |elems| ensures Convert(elems[i]) == elems[i] {
        ConvertFixesBigIntFree(elems[i]);
      }
      assert Convert(v).elems == elems;
    case JObject(props) =>
      forall i | 0 <= i < |props| ensures Convert(props[i].value) == props[i].value {
        ConvertFixesBigIntFree(props[i].value);
      }
      assert Convert(v).props == props;
    case _ =>
  }

  /** Converting twice is converting once. */
  lemma ConvertIdempotent(v: JsValue)
    ensures Convert(Convert(v)) == Convert(v)
  {
    ConvertFixesBigIntFree(Convert(v));
  }
}
