/**
 * The regional map: its layer stack, its WMS sources and the year it takes
 * from the menu. Unlike the other three maps, it builds its AGB, BGB and SOC
 * layers without the biomass class.
 */
module MapRegion {
  import opened Wrappers
  import opened Strings
  import opened Layers
  import opened Menu
  import opened Session
  import Popup

  /** The page opens on 2018. */
  const DefaultYear: int := 2018

  /** The view's state: the year. */
  datatype ViewState = ViewState(year: int)

  const InitialState: ViewState := ViewState(DefaultYear)

  /**
   * The map's stack as the view builds it, bottom first: the base map, SOC,
   * BGB, AGB, watersheds, counties, highways and hydrography, every one of
   * them in the default class.
   */
  function StackAsWritten(): (r: seq<Layer>)
    ensures |r| == 8 && DistinctNames(r) && NoneTagged(r)
    ensures Named(r[1], Soc) && Named(r[2], Bgb) && Named(r[3], Agb)
    ensures !r[1].visible && !r[2].visible && r[3].visible
    ensures r[0].visible && r[4].visible && !r[5].visible && !r[6].visible && !r[7].visible
  {
    [ Layer(None, DefaultClass, true, FullOpacity),
      Layer(Some(Soc), DefaultClass, false, FullOpacity),
      Layer(Some(Bgb), DefaultClass, false, FullOpacity),
      Layer(Some(Agb), DefaultClass, true, FullOpacity),
      Layer(Some("watersheds"), DefaultClass, true, FullOpacity),
      Layer(Some("counties"), DefaultClass, false, FullOpacity),
      Layer(Some("highways"), DefaultClass, false, FullOpacity),
      Layer(Some("hidrography"), DefaultClass, false, FullOpacity) ]
  }

  /**
   * As written, no action in the menu ever changes which of the AGB, BGB and
   * SOC layers shows: AGB stays on and the other two stay off.
   */
  lemma AsWrittenBiomassLayersNeverMove(actions: seq<Action>)
    ensures var r := Run(Controls(InitialFlags, StackAsWritten()), actions);
      |r.layers| == 8 && !r.layers[1].visible && !r.layers[2].visible && r.layers[3].visible
  {
    var s := StackAsWritten();
    UntaggedBiomassLayersNeverMove(Controls(InitialFlags, s), actions);
    assert IsBiomassName(s[1].name.GetOr("")) && IsBiomassName(s[2].name.GetOr("")) && IsBiomassName(s[3].name.GetOr(""));
  }

  /** One click on the BGB switch: the switch shows BGB on while the map still shows AGB. */
  lemma AsWrittenBgbClickDesynchronises()
    ensures var r := Run(Controls(InitialFlags, StackAsWritten()), [SwitchClick(BgbProduct)]);
      r.flags.bgb && !r.flags.agb && !r.layers[2].visible && r.layers[3].visible
  {
    var c := Controls(InitialFlags, StackAsWritten());
    SwitchOnSetsOneFlag(c.flags, Bgb);
    AsWrittenBiomassLayersNeverMove([SwitchClick(BgbProduct)]);
    assert Run(c, [SwitchClick(BgbProduct)]) == Step(c, SwitchClick(BgbProduct));
  }

  /** As written, hovering the map never turns the cursor into a pointer, whatever the user did before. */
  lemma AsWrittenCursorNeverPoints(actions: seq<Action>, current: string, m: Popup.PointerMove)
    requires !m.dragging
    ensures Popup.Cursor(current, Run(Controls(InitialFlags, StackAsWritten()), actions).layers, m) == ""
  {
    var c := Controls(InitialFlags, StackAsWritten());
    UntaggedBiomassLayersNeverMove(c, actions);
    var layers := Run(c, actions).layers;
    assert NoneTagged(layers) by {
      assert forall i :: 0 <= i < |layers| ==> layers[i].className == c.layers[i].className;
    }
  }

  /** The stack with the biomass class on AGB, BGB and SOC, as the other three maps build it. */
  function Stack(): (r: seq<Layer>)
    ensures |r| == 8 && DistinctNames(r)
    ensures forall i :: 0 <= i < |r| ==> (Tagged(r[i]) <==> 1 <= i <= 3)
    ensures BiomassTagged(r)
    ensures VisibleTagged(r) == {3} && Named(r[3], Agb)
    ensures forall i :: 0 <= i < |r| ==> SameButVisibility(r[i].(className := DefaultClass), StackAsWritten()[i]) && r[i].visible == StackAsWritten()[i].visible
  {
    var w := StackAsWritten();
    var r := w[1 := w[1].(className := BiomassClass)][2 := w[2].(className := BiomassClass)][3 := w[3].(className := BiomassClass)];
    assert Tagged(r[3]) && Named(r[3], Agb);
    assert Tagged(r[2]) && Named(r[2], Bgb);
    assert Tagged(r[1]) && Named(r[1], Soc);
    assert 3 in VisibleTagged(r);
    r
  }

  /** With the biomass class, exactly one biomass layer shows, the one whose switch is on. */
  lemma AlwaysOneBiomassLayerShows(actions: seq<Action>)
    ensures var r := Run(Controls(InitialFlags, Stack()), actions);
      exists k :: 0 <= k < |r.layers| && VisibleTagged(r.layers) == {k} && FlagOf(r.flags, r.layers[k].name.GetOr(""))
  {
    var c := Controls(InitialFlags, Stack());
    assert InSync(c);
    AlwaysOneBiomassLayer(c, actions);
  }

  /** With the biomass class, hovering AGB turns the cursor into a pointer. */
  lemma CursorPointsAtBiomass(current: string)
    ensures Popup.Cursor(current, Stack(), Popup.PointerMove(false, {3})) == "pointer"
  {
    assert Tagged(Stack()[3]);
  }

  /** The AGB, BGB and SOC sources (the popup's order): the view's year on all three. */
  function BiomassSources(base: string, v: ViewState): (r: seq<Source>)
    ensures |r| == 3
    ensures forall i :: 0 <= i < 3 ==> r[i].year == Some(v.year) && r[i].code.None? && r[i].ws.None?
  {
    ProductSources(base, "Region", Some(v.year), None, None)
  }

  /** The watershed, county, highway and hydrography sources: no parameter from the view. */
  function StaticSources(base: string): (r: seq<Source>)
    ensures |r| == 4
    ensures forall i :: 0 <= i < 4 ==> r[i].year.None? && r[i].code.None? && r[i].ws.None?
  {
    [ Source(base + "watersheds.map", "watersheds", None, None, None),
      Source(base + "counties.map", "counties", None, None, None),
      Source(base + "highwaysRegion.map", "Rodovias", None, None, None),
      Source(base + "hidrographyRegion.map", "hidrografia", None, None, None) ]
  }

  /** `handleYear`: the year changes. */
  function HandleYear(v: ViewState, y: int): (r: ViewState)
    ensures r.year == y
  {
    v.(year := y)
  }

  /** Choosing a year puts it into the three biomass sources. */
  lemma YearReachesBiomassSources(v: ViewState, base: string, y: int)
    ensures forall s :: s in BiomassSources(base, HandleYear(v, y)) ==> s.year == Some(y)
  {
  }
}
