/**
 * The ordered stack of map layers a view hands to the map, and the three
 * side-menu handlers that change it: the exclusive biomass switch, the
 * opacity slider and the static-layer switch.
 */
module Layers {
  import opened Wrappers
  import opened Strings

  /** Opacity in tenths: the slider's range 0..1 with step 0.1. */
  type Tenths = x: int | 0 <= x <= 10

  /** A new tile layer is fully opaque. */
  const FullOpacity: Tenths := 10

  /** The class every tile layer gets unless it is created with another one. */
  const DefaultClass: string := "ol-layer"

  /** The class the biomass layers are created with in most views. */
  const BiomassClass: string := "biomass-layer"

  /**
   * One tile layer: the `name` property (never set on the base map), the
   * class it was created with, and its visibility and opacity.
   */
  datatype Layer = Layer(name: Option<string>, className: string, visible: bool, opacity: Tenths)

  /**
   * A WMS tile source: the map file it reads, its `LAYERS` parameter, and
   * the optional `year`, `code` and `ws` parameters the views pass.
   */
  datatype Source = Source(url: string, layerName: string, year: Option<int>, code: Option<JsNumber>, ws: Option<string>)

  /** The `LAYERS` parameters of the three biomass sources, in the order the popup receives them. */
  const ProductLayerNames: seq<string> := ["agb", "bgb", "soc"]

  /**
   * The AGB, BGB and SOC sources of one view: map file `<layer><view>.map`
   * under the WMS base URL, and the same optional parameters on all three.
   */
  function ProductSources(base: string, view: string, year: Option<int>, code: Option<JsNumber>, ws: Option<string>)
    : (r: seq<Source>)
    ensures |r| == 3
    ensures forall i :: 0 <= i < 3 ==> r[i].layerName == ProductLayerNames[i]
    ensures forall i :: 0 <= i < 3 ==> r[i].url == base + ProductLayerNames[i] + view + ".map"
    ensures forall i :: 0 <= i < 3 ==> r[i].year == year && r[i].code == code && r[i].ws == ws
  {
    seq(3, i requires 0 <= i < 3 => Source(base + ProductLayerNames[i] + view + ".map", ProductLayerNames[i], year, code, ws))
  }

  /** All named layers carry different names. */
  predicate DistinctNames(layers: seq<Layer>) {
    forall i, j :: 0 <= i < j < |layers| && layers[i].name.Some? ==> layers[i].name != layers[j].name
  }

  /** The class filter the visibility handler and the hover hit test apply. */
  predicate Tagged(l: Layer) {
    l.className != DefaultClass
  }

  predicate Named(l: Layer, n: string) {
    l.name == Some(n)
  }

  /** `b` is `a` with at most its visibility changed. */
  predicate SameButVisibility(a: Layer, b: Layer) {
    a.name == b.name && a.className == b.className && a.opacity == b.opacity
  }

  /** The indices of the tagged layers that are visible. */
  function VisibleTagged(layers: seq<Layer>): (r: set<nat>) {
    set i: nat | i < |layers| && Tagged(layers[i]) && layers[i].visible
  }

  /** No two tagged layers share a name. */
  predicate UniqueTaggedNames(layers: seq<Layer>) {
    forall i, j ::
      (0 <= i < |layers| && 0 <= j < |layers| && Tagged(layers[i]) && Tagged(layers[j])
       && layers[i].name.Some? && layers[i].name == layers[j].name) ==> i == j
  }

  /** One layer as the visibility handler leaves it. */
  function ExclusiveOne(l: Layer, e: bool, n: string): (r: Layer) {
    if !Tagged(l) then l else if Named(l, n) then l.(visible := e) else l.(visible := !e)
  }

  /**
   * The map part of the menu's visibility handler, layer by layer: a tagged
   * layer named `n` gets `e`, every other tagged layer gets `!e`, and layers
   * of the default class are left alone.
   */
  function ApplyExclusive(layers: seq<Layer>, e: bool, n: string): (r: seq<Layer>)
    ensures |r| == |layers|
    ensures forall i :: 0 <= i < |r| ==> SameButVisibility(layers[i], r[i])
    ensures forall i :: 0 <= i < |r| && !Tagged(layers[i]) ==> r[i] == layers[i]
    ensures forall i :: 0 <= i < |r| && Tagged(layers[i]) && Named(layers[i], n) ==> r[i].visible == e
    ensures forall i :: 0 <= i < |r| && Tagged(layers[i]) && !Named(layers[i], n) ==> r[i].visible == !e
  {
    if |layers| == 0 then [] else [ExclusiveOne(layers[0], e, n)] + ApplyExclusive(layers[1..], e, n)
  }

  /** The opacity handler: every layer named `n` takes opacity `o`. */
  function SetOpacity(layers: seq<Layer>, o: Tenths, n: string): (r: seq<Layer>)
    ensures |r| == |layers|
    ensures forall i :: 0 <= i < |r| && Named(layers[i], n) ==> r[i] == layers[i].(opacity := o)
    ensures forall i :: 0 <= i < |r| && !Named(layers[i], n) ==> r[i] == layers[i]
  {
    if |layers| == 0 then []
    else [if Named(layers[0], n) then layers[0].(opacity := o) else layers[0]] + SetOpacity(layers[1..], o, n)
  }

  /** The static-layer handler: every layer named `n` takes visibility `e`. */
  function SetVisibleNamed(layers: seq<Layer>, e: bool, n: string): (r: seq<Layer>)
    ensures |r| == |layers|
    ensures forall i :: 0 <= i < |r| && Named(layers[i], n) ==> r[i] == layers[i].(visible := e)
    ensures forall i :: 0 <= i < |r| && !Named(layers[i], n) ==> r[i] == layers[i]
  {
    if |layers| == 0 then []
    else [if Named(layers[0], n) then layers[0].(visible := e) else layers[0]] + SetVisibleNamed(layers[1..], e, n)
  }

  /**
   * Switching a layer on makes it the only visible tagged layer, provided
   * tagged names are unique; when no tagged layer carries the name, every
   * tagged layer ends up hidden.
   */
  lemma ActivationIsExclusive(layers: seq<Layer>, n: string)
    requires UniqueTaggedNames(layers)
    ensures forall k :: 0 <= k < |layers| && Tagged(layers[k]) && Named(layers[k], n) ==>
      VisibleTagged(ApplyExclusive(layers, true, n)) == {k}
    ensures (forall k :: 0 <= k < |layers| ==> !(Tagged(layers[k]) && Named(layers[k], n))) ==>
      VisibleTagged(ApplyExclusive(layers, true, n)) == {}
  {
    var r := ApplyExclusive(layers, true, n);
    forall k | 0 <= k < |layers| && Tagged(layers[k]) && Named(layers[k], n)
      ensures VisibleTagged(r) == {k}
    {
      forall i: nat | i in VisibleTagged(r)
        ensures i == k
      {
        assert Tagged(layers[i]) && Named(layers[i], n);
      }
      assert k in VisibleTagged(r);
    }
  }

  /**
   * Switching a layer off is not exclusive: it hides the named tagged layer
   * and shows every other tagged layer.
   */
  lemma DeactivationShowsTheOthers(layers: seq<Layer>, n: string)
    ensures VisibleTagged(ApplyExclusive(layers, false, n))
      == set i: nat | i < |layers| && Tagged(layers[i]) && !Named(layers[i], n)
  {
  }

  /** Running the visibility handler a second time with the same arguments changes nothing. */
  lemma ExclusiveIsIdempotent(layers: seq<Layer>, e: bool, n: string)
    ensures ApplyExclusive(ApplyExclusive(layers, e, n), e, n) == ApplyExclusive(layers, e, n)
  {
    var once := ApplyExclusive(layers, e, n);
    var twice := ApplyExclusive(once, e, n);
    forall i | 0 <= i < |layers|
      ensures twice[i] == once[i]
    {
    }
  }

  /**
   * An opacity set while a layer is hidden survives a later visibility
   * change: the visibility handler never touches opacity.
   */
  lemma OpacitySurvivesActivation(layers: seq<Layer>, o: Tenths, n: string, e: bool, m: string)
    ensures forall i :: 0 <= i < |layers| && Named(layers[i], n) ==>
      ApplyExclusive(SetOpacity(layers, o, n), e, m)[i].opacity == o
  {
  }
}
