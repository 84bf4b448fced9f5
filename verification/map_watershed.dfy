/**
 * The watershed map: its layer stack, its WMS sources, and the year and
 * watershed selections it takes from the menu.
 */
module MapWatershed {
  import opened Wrappers
  import opened Strings
  import opened Layers
  import opened Lookup
  import opened Menu
  import opened Session

  /** The page opens on 2018 and the watershed "grande". */
  const DefaultYear: int := 2018
  const DefaultWatershed: string := "grande"

  /** The view's state: the year and the selected watershed. */
  datatype ViewState = ViewState(year: int, watershed: string)

  const InitialState: ViewState := ViewState(DefaultYear, DefaultWatershed)

  /** The watersheds the menu offers. */
  const MenuWatersheds: seq<string> := ["Grande", "Corrente", "Carinhanha"]

  /**
   * The map's stack, bottom first, with the names the view sets: the base map,
   * SOC, BGB and AGB in the biomass class, highways and hydrography.
   */
  function Stack(): (r: seq<Layer>)
    ensures |r| == 6 && DistinctNames(r)
    ensures forall i :: 0 <= i < |r| ==> (Tagged(r[i]) <==> 1 <= i <= 3)
    ensures BiomassTagged(r)
    ensures VisibleTagged(r) == {3} && Named(r[3], Agb)
    ensures r[0].name.None? && Named(r[1], Soc) && Named(r[2], Bgb)
    ensures Named(r[4], "highways") && Named(r[5], "hidrography")
    ensures r[0].visible && !r[4].visible && !r[5].visible
  {
    var r := [ Layer(None, DefaultClass, true, FullOpacity),
               Layer(Some(Soc), BiomassClass, false, FullOpacity),
               Layer(Some(Bgb), BiomassClass, false, FullOpacity),
               Layer(Some(Agb), BiomassClass, true, FullOpacity),
               Layer(Some("highways"), DefaultClass, false, FullOpacity),
               Layer(Some("hidrography"), DefaultClass, false, FullOpacity) ];
    assert Tagged(r[3]) && Named(r[3], Agb);
    assert Tagged(r[2]) && Named(r[2], Bgb);
    assert Tagged(r[1]) && Named(r[1], Soc);
    assert 3 in VisibleTagged(r);
    r
  }

  /**
   * Whatever the user does in the menu, exactly one biomass layer of this map
   * shows, and it is the one whose switch is on.
   */
  lemma AlwaysOneBiomassLayerShows(actions: seq<Action>)
    ensures var r := Run(Controls(InitialFlags, Stack()), actions);
      exists k :: 0 <= k < |r.layers| && VisibleTagged(r.layers) == {k} && FlagOf(r.flags, r.layers[k].name.GetOr(""))
  {
    var c := Controls(InitialFlags, Stack());
    assert InSync(c);
    AlwaysOneBiomassLayer(c, actions);
  }

  /**
   * After any actions, the menu's highway and hydrography switches reach this
   * map's highway and hydrography layers, and only those.
   */
  lemma StaticSwitchesReachTheirLayers(actions: seq<Action>, on: bool)
    ensures var before := Run(Controls(InitialFlags, Stack()), actions);
      var r := Step(before, StaticSwitch(Highways, on));
      && |r.layers| == |Stack()|
      && r.layers[4].visible == on
      && forall i :: 0 <= i < |r.layers| && i != 4 ==> r.layers[i] == before.layers[i]
    ensures var before := Run(Controls(InitialFlags, Stack()), actions);
      var r := Step(before, StaticSwitch(Hidrography, on));
      && |r.layers| == |Stack()|
      && r.layers[5].visible == on
      && forall i :: 0 <= i < |r.layers| && i != 5 ==> r.layers[i] == before.layers[i]
  {
    var c := Controls(InitialFlags, Stack());
    StaticSwitchReachesItsLayer(c, actions, Highways, on, 4);
    StaticSwitchReachesItsLayer(c, actions, Hidrography, on, 5);
  }

  /** The AGB, BGB and SOC sources (the popup's order): the view's year and watershed on all three. */
  function BiomassSources(base: string, v: ViewState): (r: seq<Source>)
    ensures |r| == 3
    ensures forall i :: 0 <= i < 3 ==> r[i].year == Some(v.year) && r[i].code.None? && r[i].ws == Some(v.watershed)
  {
    ProductSources(base, "Watersheds", Some(v.year), None, Some(v.watershed))
  }

  /** The highway and hydrography sources: the view's watershed, no year. */
  function StaticSources(base: string, v: ViewState): (r: seq<Source>)
    ensures |r| == 2
    ensures forall i :: 0 <= i < 2 ==> r[i].year.None? && r[i].code.None? && r[i].ws == Some(v.watershed)
  {
    [ Source(base + "highwaysWatersheds.map", "Rodovias", None, None, Some(v.watershed)),
      Source(base + "hidrographyWatersheds.map", "hidrografia", None, None, Some(v.watershed)) ]
  }

  /** `handleYear`: only the year changes. */
  function HandleYear(v: ViewState, y: int): (r: ViewState)
    ensures r.year == y && r.watershed == v.watershed
  {
    v.(year := y)
  }

  /** `handleWatershed`: only the watershed changes. */
  function HandleWatershed(v: ViewState, ws: string): (r: ViewState)
    ensures r.watershed == ws && r.year == v.year
  {
    v.(watershed := ws)
  }

  /** Choosing a watershed puts it into every source of the map and keeps the year. */
  lemma WatershedReachesEverySource(v: ViewState, base: string, ws: string)
    ensures var w := HandleWatershed(v, ws);
      && (forall s :: s in BiomassSources(base, w) ==> s.ws == Some(ws) && s.year == Some(v.year))
      && (forall s :: s in StaticSources(base, w) ==> s.ws == Some(ws))
  {
  }

  /** The centroids the view centres on after `ws` is chosen. */
  function CentroidsFor(records: seq<WatershedRecord>, ws: string): (r: seq<string>) {
    CentroidsNamed(records, HandleWatershed(InitialState, ws).watershed)
  }

  /**
   * The menu's three choices look up the records named in capitals, and
   * their download links use the lower-case directory names.
   */
  lemma MenuChoicesMatchRecordsAndFolders()
    ensures ToUpper(MenuWatersheds[0]) == "GRANDE" && ToLower(MenuWatersheds[0]) == "grande"
    ensures ToUpper(MenuWatersheds[1]) == "CORRENTE" && ToLower(MenuWatersheds[1]) == "corrente"
    ensures ToUpper(MenuWatersheds[2]) == "CARINHANHA" && ToLower(MenuWatersheds[2]) == "carinhanha"
  {
    CaseOfGrande();
    CaseOfCorrente();
    CaseOfCarinhanha();
  }

  lemma CaseOfGrande()
    ensures ToUpper("Grande") == "GRANDE" && ToLower("Grande") == "grande"
  {
    ToUpperIs("Grande", "GRANDE");
    ToLowerIs("Grande", "grande");
  }

  lemma CaseOfCorrente()
    ensures ToUpper("Corrente") == "CORRENTE" && ToLower("Corrente") == "corrente"
  {
    ToUpperIs("Corrente", "CORRENTE");
    ToLowerIs("Corrente", "corrente");
  }

  lemma CaseOfCarinhanha()
    ensures ToUpper("Carinhanha") == "CARINHANHA" && ToLower("Carinhanha") == "carinhanha"
  {
    UpperOfCarinhanha();
    LowerOfCarinhanha();
  }

  lemma UpperOfCarinhanha()
    ensures ToUpper("Carinhanha") == "CARINHANHA"
  {
    ToUpperIs("Carinhanha", "CARINHANHA");
  }

  lemma LowerOfCarinhanha()
    ensures ToLower("Carinhanha") == "carinhanha"
  {
    ToLowerIs("Carinhanha", "carinhanha");
  }

  /**
   * Choosing a menu watershed centres on exactly the records of that name in
   * capitals, in record order; when one record alone has the name, the list is
   * that record's centroid.
   */
  lemma CentreFollowsTheChoice(records: seq<WatershedRecord>, i: nat)
    requires i < |MenuWatersheds|
    ensures var r := CentroidsFor(records, MenuWatersheds[i]);
      && r == CentroidsNamed(records, MenuWatersheds[i])
      && (forall j :: 0 <= j < |records| && records[j].name == ToUpper(MenuWatersheds[i]) ==> records[j].centroid in r)
      && (forall c :: c in r ==> exists j :: 0 <= j < |records| && records[j].name == ToUpper(MenuWatersheds[i]) && records[j].centroid == c)
      && (forall k ::
            (0 <= k < |records| && records[k].name == ToUpper(MenuWatersheds[i])
             && forall j :: 0 <= j < |records| && j != k ==> records[j].name != ToUpper(MenuWatersheds[i]))
            ==> r == [records[k].centroid])
  {
    var ws := MenuWatersheds[i];
    forall k | 0 <= k < |records| && records[k].name == ToUpper(ws) && (forall j :: 0 <= j < |records| && j != k ==> records[j].name != ToUpper(ws))
      ensures CentroidsNamed(records, ws) == [records[k].centroid]
    {
      OneNameMatch(records, ws, k);
    }
  }

  /** The view hands the menu its own watershed, so the download directory follows the choice. */
  lemma LinkFollowsWatershed(v: ViewState, ws: string)
    ensures UrlDir("gcc", Some(HandleWatershed(v, ws).watershed), None) == FtpRoot + "gcc/" + ToLower(ws)
  {
  }
}
