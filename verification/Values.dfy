/** Property values, their comparison, and the attribute names that carry
    user-written references (src/variant_eq.rs, src/rojo_ref.rs). */
module Values {
  import opened Basics

  datatype Float = NaN | Finite(value: real)

  /** The content of a binary string, told apart by whether it decodes as UTF-8. */
  datatype Bytes = Utf8(text: string) | NotUtf8(raw: seq<nat>)

  datatype Scalar =
    | Str(text: string)
    | Binary(bytes: Bytes)
    | Bool(truth: bool)
    | Number(number: Float)
    | Shared(blob: string)
    | UniqueId(printed: string)
    | Other(kind: nat, payload: seq<nat>)

  datatype Value =
    | RefValue(ref: Ref)
    | Attributes(attrs: map<string, Scalar>)
    | Plain(scalar: Scalar)

  type Props = map<string, Value>

  const ATTRIBUTES := "Attributes"
  const ID_ATTRIBUTE := "Rojo_Id"
  const POINTER_PREFIX := "Rojo_Target_"
  const PIVOT := "NeedsPivotMigration"
  const PIVOT_OFF := Plain(Bool(false))

  const FLOAT_MARGIN: real := 0.00000011920928955078125

  predicate ApproxEq(a: Float, b: Float) {
    if a.Finite? && b.Finite? then -FLOAT_MARGIN <= a.value - b.value <= FLOAT_MARGIN
    else a.NaN? && b.NaN?
  }

  predicate ScalarEq(a: Scalar, b: Scalar) {
    if a.Number? && b.Number? then ApproxEq(a.number, b.number) else a == b
  }

  /** `variant_eq`: equal kinds, floats up to a margin, attributes key by key. */
  predicate VariantEq(a: Value, b: Value) {
    match a
    case RefValue(r) => b.RefValue? && r == b.ref
    case Plain(x) => b.Plain? && ScalarEq(x, b.scalar)
    case Attributes(m) =>
      b.Attributes? && m.Keys == b.attrs.Keys &&
      forall k :: k in m ==> ScalarEq(m[k], b.attrs[k])
  }

  /** Not a number, or at most 2 to the power of -23 apart. */
  predicate SameNumber(a: Float, b: Float) {
    (a.NaN? && b.NaN?) || (a.Finite? && b.Finite? && -1.0 <= (a.value - b.value) * 8388608.0 <= 1.0)
  }

  predicate SameScalar(a: Scalar, b: Scalar) {
    a == b || (a.Number? && b.Number? && SameNumber(a.number, b.number))
  }

  predicate SameValue(a: Value, b: Value) {
    || a == b
    || (a.Plain? && b.Plain? && SameScalar(a.scalar, b.scalar))
    || (a.Attributes? && b.Attributes? && a.attrs.Keys == b.attrs.Keys
        && forall k :: k in a.attrs ==> SameScalar(a.attrs[k], b.attrs[k]))
  }

  /** `variant_eq` is exact but for numbers, alone or as attributes. */
  lemma EqualExactlyWhenSame(a: Value, b: Value)
    ensures VariantEq(a, b) <==> SameValue(a, b)
  {
  }

  /** In particular numbers that are told apart are not the same, and numbers that are
      not told apart are near. */
  lemma NumbersToldApart(a: Float, b: Float)
    ensures VariantEq(Plain(Number(a)), Plain(Number(b))) ==>
      (a.NaN? && b.NaN?) || (a.Finite? && b.Finite? && -0.0000002 < a.value - b.value < 0.0000002)
    ensures !VariantEq(Plain(Number(a)), Plain(Number(b))) ==>
      a != b && (a.Finite? && b.Finite? ==> a.value - b.value > 0.0000001 || b.value - a.value > 0.0000001)
  {
    assert FLOAT_MARGIN * 8388608.0 == 1.0;
  }

  /** Classes that inherit from Model and so need `NeedsPivotMigration`. */
  predicate ModelLike(className: string) {
    className in {"Model", "Actor", "Tool", "HopperBin", "Flag", "WorldModel", "Workspace", "Status"}
  }

  /** The text of a string or of a binary string that is valid UTF-8. */
  function TextOf(v: Scalar): (r: Option<string>) {
    match v
    case Str(text) => Some(text)
    case Binary(Utf8(text)) => Some(text)
    case _ => None
  }

  predicate IsPointerName(name: string) {
    POINTER_PREFIX <= name
  }

  function PointerName(prop: string): (name: string)
    ensures IsPointerName(name) && name[|POINTER_PREFIX|..] == prop
  {
    POINTER_PREFIX + prop
  }

  /** The attributes stored under the `Attributes` property, if it has that kind. */
  function AttributesOf(props: Props): (r: Option<map<string, Scalar>>) {
    if ATTRIBUTES in props && props[ATTRIBUTES].Attributes? then Some(props[ATTRIBUTES].attrs) else None
  }

  /** The names of the properties that the attributes point with. */
  function PointerProps(attrs: map<string, Scalar>): (r: set<string>)
    ensures forall p :: p in r <==> PointerName(p) in attrs && TextOf(attrs[PointerName(p)]).Some?
  {
    var r := set a | a in attrs && IsPointerName(a) && TextOf(attrs[a]).Some? :: a[|POINTER_PREFIX|..];
    assert forall a :: a in attrs && IsPointerName(a) ==> a == PointerName(a[|POINTER_PREFIX|..]);
    assert forall p ::
      PointerName(p) in attrs && TextOf(attrs[PointerName(p)]).Some? ==> PointerName(p)[|POINTER_PREFIX|..] in r;
    r
  }

  /** The names of the properties that the attributes among these properties point
      with: what they end as is decided by pointers. */
  function PointedBy(props: Props): (r: set<string>) {
    if AttributesOf(props).Some? then PointerProps(AttributesOf(props).value) else {}
  }

  predicate AgreeAt(a: Props, b: Props, k: string) {
    (k in a <==> k in b) && (k in a && k in b ==> a[k] == b[k])
  }

  /** Equal away from the properties in `off`. */
  ghost predicate AgreeOff(a: Props, b: Props, off: set<string>) {
    forall k :: k !in off ==> AgreeAt(a, b, k)
  }

  lemma AgreeEverywhere(a: Props, b: Props)
    ensures a == b <==> forall k :: AgreeAt(a, b, k)
  {
    if forall k :: AgreeAt(a, b, k) {
      forall k ensures k in a <==> k in b { assert AgreeAt(a, b, k); }
      forall k | k in a ensures a[k] == b[k] { assert AgreeAt(a, b, k); }
    }
  }

  lemma VariantEqReflexive(v: Value)
    ensures VariantEq(v, v)
  {
  }

  /** Translating a reference through a table of known ids. */
  function Translate(ids: map<Ref, Ref>, v: Value): (r: Value) {
    if v.RefValue? && v.ref in ids then RefValue(ids[v.ref]) else v
  }

  function TranslateProps(ids: map<Ref, Ref>, props: Props): (r: Props)
    ensures r.Keys == props.Keys
    ensures forall k :: k in props ==> r[k] == Translate(ids, props[k])
  {
    map k | k in props :: Translate(ids, props[k])
  }
}
