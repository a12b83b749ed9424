/** The document data model of the thumbnail editor (types.ts). */
module Types {
  import opened Wrappers

  datatype Script = Normal | Superscript
  datatype CaseTransform = NoTransform | Uppercase

  /** The optional style overrides of a text span; None means "not set, use the layer default". */
  datatype SpanStyle = SpanStyle(
    fontFamily: Option<string>,
    fontSize: Option<real>,
    color: Option<string>,
    fontWeight: Option<int>,
    underline: Option<bool>,
    strikethrough: Option<bool>,
    textScript: Option<Script>,
    textTransform: Option<CaseTransform>)

  const NoStyle := SpanStyle(None, None, None, None, None, None, None, None)

  /** A run of characters sharing one style. */
  datatype TextSpan = TextSpan(text: string, style: SpanStyle)

  datatype Align = AlignLeft | AlignCenter | AlignRight

  datatype Stroke = Stroke(id: string, color: string, width: real)

  datatype TextProps = TextProps(
    spans: seq<TextSpan>,
    fontFamily: string,
    fontSize: real,
    color: string,
    fontWeight: int,
    textAlign: Option<Align>,
    spansVersion: Option<int>,
    strokes: Option<seq<Stroke>>,
    underline: Option<bool>,
    strikethrough: Option<bool>,
    textScript: Option<Script>,
    textTransform: Option<CaseTransform>)

  datatype ShapeKind =
    | Rectangle(cornerRadius: real)
    | Ellipse
    | Polygon(pointCount: int, innerRadiusRatio: real, polygonCornerRadius: real)

  datatype ShapeProps = ShapeProps(kind: ShapeKind, fill: string, strokes: Option<seq<Stroke>>)

  datatype CapShape = NoCap | TriangleCap | SquareCap | CircleCap
  datatype LineEndCap = LineEndCap(shape: CapShape, size: real)
  datatype LineProps = LineProps(color: string, strokeWidth: real, startCap: LineEndCap, endCap: LineEndCap)

  /** The closed set of layer kinds. */
  datatype Content =
    | Text(text: TextProps)
    | Image(src: string)
    | Shape(shape: ShapeProps)
    | Line(line: LineProps)

  datatype Layer = Layer(
    id: string,
    name: Option<string>,
    dataId: Option<string>,
    x: real,
    y: real,
    width: real,
    height: real,
    rotation: real,
    zIndex: int,
    locked: bool,
    visible: Option<bool>,
    content: Content)
  {
    predicate IsText() { content.Text? }
    /** `visible ?? true` */
    predicate IsVisible() { visible.GetOr(true) }
  }

  datatype Orientation = Horizontal | Vertical

  datatype Guide = Guide(id: string, orientation: Orientation, position: real, color: Option<string>)

  datatype Artboard = Artboard(
    id: string,
    name: string,
    width: real,
    height: real,
    backgroundColor: string,
    layers: seq<Layer>,
    guides: Option<seq<Guide>>)

  /** A saved text style that a CSV column can be mapped to. */
  datatype TextStyle = TextStyle(
    id: string,
    name: string,
    fontFamily: string,
    fontWeight: int,
    fontSize: real,
    textAlign: Option<Align>,
    color: string,
    strokes: Option<seq<Stroke>>,
    underline: Option<bool>,
    strikethrough: Option<bool>,
    textScript: Option<Script>,
    textTransform: Option<CaseTransform>)

  datatype FontVariant = FontVariant(name: string, weight: int, italic: bool, url: string)
  datatype FontFamily = FontFamily(name: string, variants: seq<FontVariant>)

  /** The evaluated cosine and sine of an angle; trigonometry itself is not modelled. */
  datatype Rot = Rot(c: real, s: real)

  ghost predicate IsUnit(r: Rot) { r.c * r.c + r.s * r.s == 1.0 }

  function Min(a: real, b: real): real { if a <= b then a else b }
  function Max(a: real, b: real): real { if a >= b then a else b }
  function Abs(a: real): real { if a < 0.0 then -a else a }
  function IMin(a: int, b: int): int { if a <= b then a else b }
  function IMax(a: int, b: int): int { if a >= b then a else b }

  /** Ids are unique within a layer list. */
  ghost predicate UniqueIds(layers: seq<Layer>) {
    forall i, j :: 0 <= i < j < |layers| ==> layers[i].id != layers[j].id
  }

  predicate HasId(layers: seq<Layer>, id: string) {
    exists i :: 0 <= i < |layers| && layers[i].id == id
  }

  /** `layers.find(l => l.id === id)`: the first layer with that id. */
  function FindLayer(layers: seq<Layer>, id: string): (r: Option<Layer>)
    ensures r.Some? ==> r.value in layers && r.value.id == id
    ensures r.Some? ==> exists i :: (0 <= i < |layers| && layers[i] == r.value &&
      forall j :: 0 <= j < i ==> layers[j].id != id)
    ensures r.None? <==> !HasId(layers, id)
  {
    if layers == [] then None
    else if layers[0].id == id then Some(layers[0])
    else
      var r := FindLayer(layers[1..], id);
      assert forall i :: 1 <= i < |layers| ==> layers[i] == layers[1..][i - 1];
      r
  }

  /** `layers.filter(l => selectedLayerIds.includes(l.id))`, in list order. */
  function SelectedLayers(layers: seq<Layer>, ids: seq<string>): (r: seq<Layer>)
    ensures |r| <= |layers|
    ensures forall l :: l in r <==> l in layers && l.id in ids
  {
    if layers == [] then []
    else (if layers[0].id in ids then [layers[0]] else []) + SelectedLayers(layers[1..], ids)
  }

  /** `filter` keeps the list order and every repeat: it distributes over
    * concatenation, and a list whose layers are all selected comes back whole. */
  lemma SelectedKeepsOrder(a: seq<Layer>, b: seq<Layer>, ids: seq<string>)
    ensures SelectedLayers(a + b, ids) == SelectedLayers(a, ids) + SelectedLayers(b, ids)
    ensures (forall i :: 0 <= i < |a| ==> a[i].id in ids) ==> SelectedLayers(a, ids) == a
  {
    SelectedAppend(a, b, ids);
    if forall i :: 0 <= i < |a| ==> a[i].id in ids {
      SelectedAll(a, ids);
    }
  }

  lemma {:induction false} SelectedAppend(a: seq<Layer>, b: seq<Layer>, ids: seq<string>)
    ensures SelectedLayers(a + b, ids) == SelectedLayers(a, ids) + SelectedLayers(b, ids)
  {
    if a == [] {
      assert a + b == b;
    } else {
      assert (a + b)[0] == a[0] && (a + b)[1..] == a[1..] + b;
      SelectedAppend(a[1..], b, ids);
      var h := if a[0].id in ids then [a[0]] else [];
      assert SelectedLayers(a + b, ids) == h + SelectedLayers(a[1..] + b, ids);
      assert h + (SelectedLayers(a[1..], ids) + SelectedLayers(b, ids)) == (h + SelectedLayers(a[1..], ids)) + SelectedLayers(b, ids);
    }
  }

  lemma {:induction false} SelectedAll(a: seq<Layer>, ids: seq<string>)
    requires forall i :: 0 <= i < |a| ==> a[i].id in ids
    ensures SelectedLayers(a, ids) == a
  {
    if a != [] {
      assert forall i :: 0 <= i < |a[1..]| ==> a[1..][i].id in ids by {
        forall i | 0 <= i < |a[1..]| ensures a[1..][i].id in ids { assert a[1..][i] == a[i + 1]; }
      }
      SelectedAll(a[1..], ids);
      assert [a[0]] + a[1..] == a;
    }
  }
}
