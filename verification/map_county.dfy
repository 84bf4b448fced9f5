/**
 * The county map: its layer stack, its WMS sources, and the year and county
 * selections it takes from the menu.
 */
module MapCounty {
  import opened Wrappers
  import opened Strings
  import opened Layers
  import opened CodeNames
  import opened Lookup
  import opened Menu
  import opened Session

  /** The page opens on 2018 and county 2903201. */
  const DefaultYear: int := 2018
  const DefaultSelected: Selected := Selected(Finite(2903201), "BARREIRAS - 2903201")

  /** The view's state: the year and the selected county. */
  datatype ViewState = ViewState(year: int, selected: Selected)

  const InitialState: ViewState := ViewState(DefaultYear, DefaultSelected)

  /**
   * The map's stack, bottom first, with the names the view sets: the base map,
   * SOC, BGB and AGB in the biomass class, highways and hydrography.
   */
  function Stack(): (r: seq<Layer>)
    ensures |r| == 6 && DistinctNames(r)
    ensures forall i :: 0 <= i < |r| ==> (Tagged(r[i]) <==> 1 <= i <= 3)
    ensures BiomassTagged(r)
    ensures VisibleTagged(r) == {3} && Named(r[3], Agb)
    ensures r[0].name.None? && Named(r[1], Soc) && Named(r[2], Bgb)
    ensures Named(r[4], "highways") && Named(r[5], "hidrography")
    ensures r[0].visible && !r[4].visible && !r[5].visible
  {
    var r := [ Layer(None, DefaultClass, true, FullOpacity),
               Layer(Some(Soc), BiomassClass, false, FullOpacity),
               Layer(Some(Bgb), BiomassClass, false, FullOpacity),
               Layer(Some(Agb), BiomassClass, true, FullOpacity),
               Layer(Some("highways"), DefaultClass, false, FullOpacity),
               Layer(Some("hidrography"), DefaultClass, false, FullOpacity) ];
    assert Tagged(r[3]) && Named(r[3], Agb);
    assert Tagged(r[2]) && Named(r[2], Bgb);
    assert Tagged(r[1]) && Named(r[1], Soc);
    assert 3 in VisibleTagged(r);
    r
  }

  /**
   * Whatever the user does in the menu, exactly one biomass layer of this map
   * shows, and it is the one whose switch is on.
   */
  lemma AlwaysOneBiomassLayerShows(actions: seq<Action>)
    ensures var r := Run(Controls(InitialFlags, Stack()), actions);
      exists k :: 0 <= k < |r.layers| && VisibleTagged(r.layers) == {k} && FlagOf(r.flags, r.layers[k].name.GetOr(""))
  {
    var c := Controls(InitialFlags, Stack());
    assert InSync(c);
    AlwaysOneBiomassLayer(c, actions);
  }

  /**
   * After any actions, the menu's highway and hydrography switches reach this
   * map's highway and hydrography layers, and only those.
   */
  lemma StaticSwitchesReachTheirLayers(actions: seq<Action>, on: bool)
    ensures var before := Run(Controls(InitialFlags, Stack()), actions);
      var r := Step(before, StaticSwitch(Highways, on));
      && |r.layers| == |Stack()|
      && r.layers[4].visible == on
      && forall i :: 0 <= i < |r.layers| && i != 4 ==> r.layers[i] == before.layers[i]
    ensures var before := Run(Controls(InitialFlags, Stack()), actions);
      var r := Step(before, StaticSwitch(Hidrography, on));
      && |r.layers| == |Stack()|
      && r.layers[5].visible == on
      && forall i :: 0 <= i < |r.layers| && i != 5 ==> r.layers[i] == before.layers[i]
  {
    var c := Controls(InitialFlags, Stack());
    StaticSwitchReachesItsLayer(c, actions, Highways, on, 4);
    StaticSwitchReachesItsLayer(c, actions, Hidrography, on, 5);
  }

  /** The AGB, BGB and SOC sources (the popup's order): the view's year and code on all three. */
  function BiomassSources(base: string, v: ViewState): (r: seq<Source>)
    ensures |r| == 3
    ensures forall i :: 0 <= i < 3 ==> r[i].year == Some(v.year) && r[i].code == Some(v.selected.code) && r[i].ws.None?
  {
    ProductSources(base, "Counties", Some(v.year), Some(v.selected.code), None)
  }

  /** The highway and hydrography sources: the view's code, no year. */
  function StaticSources(base: string, v: ViewState): (r: seq<Source>)
    ensures |r| == 2
    ensures forall i :: 0 <= i < 2 ==> r[i].year.None? && r[i].code == Some(v.selected.code) && r[i].ws.None?
  {
    [ Source(base + "highwaysCounties.map", "Rodovias", None, Some(v.selected.code), None),
      Source(base + "hidrographyCounties.map", "hidrografia", None, Some(v.selected.code), None) ]
  }

  /** `handleYear`: only the year changes. */
  function HandleYear(v: ViewState, y: int): (r: ViewState)
    ensures r.year == y && r.selected == v.selected
  {
    v.(year := y)
  }

  /**
   * `handleCodeName`: the label becomes the selection's name and its code is
   * the label's second segment read by `parseInt` without a radix; a label
   * without separator selects code NaN.
   */
  function HandleCodeName(v: ViewState, text: string): (r: ViewState)
    ensures r.year == v.year && r.selected.name == text
    ensures !Contains(text, Separator) ==> r.selected.code.NaN?
  {
    v.(selected := Selected(CodeOfAuto(text), text))
  }

  /**
   * Choosing a drop-down label built from a safe name and a code puts that
   * code into every source of the map, and the year is kept.
   */
  lemma SelectionReachesEverySource(v: ViewState, base: string, name: string, code: nat)
    requires SafeName(name)
    ensures var w := HandleCodeName(v, Format(name, code));
      && w.year == v.year
      && (forall s :: s in BiomassSources(base, w) ==> s.code == Some(Finite(code)) && s.year == Some(v.year))
      && (forall s :: s in StaticSources(base, w) ==> s.code == Some(Finite(code)))
  {
    FormatThenParse(name, code);
  }

  /** The page's default label is the menu's label for the default record ... */
  lemma DefaultLabelIsFormatted()
    ensures Format("BARREIRAS", 2903201) == DefaultSelected.name
  {
    DefaultCodeText();
    assert "BARREIRAS" + Separator + "2903201" == "BARREIRAS - 2903201";
  }

  /** The decimal text of the default code, one digit at a time. */
  lemma DefaultCodeText()
    ensures NatToString(2903201) == "2903201"
  {
    assert NatToString(2) == "2";
    assert NatToString(29) == "29";
    assert NatToString(290) == "290";
    assert NatToString(2903) == "2903";
    assert NatToString(29032) == "29032";
    assert NatToString(290320) == "290320";
    assert NatToString(2903201) == "2903201";
  }

  /** ... so it parses back to the page's default code. */
  lemma DefaultLabelParses(v: ViewState)
    ensures HandleCodeName(v, Format("BARREIRAS", 2903201)).selected.code == DefaultSelected.code
  {
    NoDashIsSafe("BARREIRAS");
    FormatThenParse("BARREIRAS", 2903201);
  }

  /** The centroids the view centres on after the label `text` is chosen. */
  function CentroidsFor(records: seq<GeomRecord>, text: string): (r: seq<string>) {
    CentroidsWithCode(records, HandleCodeName(InitialState, text).selected.code)
  }

  /**
   * For a label built from a safe name and a code, the view centres on
   * exactly the centroids of the records carrying that code, in record order;
   * when one record alone carries it, the list is that record's centroid.
   */
  lemma CentreFollowsTheLabel(records: seq<GeomRecord>, name: string, code: nat)
    requires SafeName(name)
    ensures var r := CentroidsFor(records, Format(name, code));
      && r == CentroidsWithCode(records, Finite(code))
      && (forall i :: 0 <= i < |records| && records[i].code == code ==> records[i].centroid in r)
      && (forall c :: c in r ==> exists i :: 0 <= i < |records| && records[i].code == code && records[i].centroid == c)
      && (forall k :: 0 <= k < |records| && records[k].code == code && (forall j :: 0 <= j < |records| && j != k ==> records[j].code != code) ==>
            r == [records[k].centroid])
  {
    FormatThenParse(name, code);
    forall k | 0 <= k < |records| && records[k].code == code && (forall j :: 0 <= j < |records| && j != k ==> records[j].code != code)
      ensures CentroidsWithCode(records, Finite(code)) == [records[k].centroid]
    {
      OneCodeMatch(records, Finite(code), k);
    }
  }

  /**
   * The view hands the menu its own selection, so the code in the menu's
   * download file name is the code of the chosen label.
   */
  lemma LinkFollowsSelection(v: ViewState, name: string, code: nat)
    requires SafeName(name)
    ensures CodeText(Some(HandleCodeName(v, Format(name, code)).selected)) == NatToString(code)
  {
    FormatThenParse(name, code);
  }
}
