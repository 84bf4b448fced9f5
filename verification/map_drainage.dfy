/**
 * The drainage-area map: its layer stack, its WMS sources, and the year and
 * drainage-area selections it takes from the menu.
 */
module MapDrainage {
  import opened Wrappers
  import opened Strings
  import opened Layers
  import opened CodeNames
  import opened Lookup
  import opened Menu
  import opened Session

  /** The page opens on 2018 and drainage area 46543000. */
  const DefaultYear: int := 2018
  const DefaultSelected: Selected := Selected(Finite(46543000), "RIO DE ONDAS - 46543000")

  /** The view's state: the year and the selected drainage area. */
  datatype ViewState = ViewState(year: int, selected: Selected)

  const InitialState: ViewState := ViewState(DefaultYear, DefaultSelected)

  /**
   * The map's stack, bottom first, with the names the view sets: the base map,
   * SOC, BGB and AGB in the biomass class, highways, hydrography and the
   * flow-gauging stations.
   */
  function Stack(): (r: seq<Layer>)
    ensures |r| == 7 && DistinctNames(r)
    ensures forall i :: 0 <= i < |r| ==> (Tagged(r[i]) <==> 1 <= i <= 3)
    ensures BiomassTagged(r)
    ensures VisibleTagged(r) == {3} && Named(r[3], Agb)
    ensures r[0].name.None? && Named(r[1], Soc) && Named(r[2], Bgb)
    ensures Named(r[4], "highways") && Named(r[5], "hidrography") && Named(r[6], "estacoes")
    ensures r[0].visible && !r[4].visible && !r[5].visible && r[6].visible
  {
    var r := [ Layer(None, DefaultClass, true, FullOpacity),
               Layer(Some(Soc), BiomassClass, false, FullOpacity),
               Layer(Some(Bgb), BiomassClass, false, FullOpacity),
               Layer(Some(Agb), BiomassClass, true, FullOpacity),
               Layer(Some("highways"), DefaultClass, false, FullOpacity),
               Layer(Some("hidrography"), DefaultClass, false, FullOpacity),
               Layer(Some("estacoes"), DefaultClass, true, FullOpacity) ];
    assert Tagged(r[3]) && Named(r[3], Agb);
    assert Tagged(r[2]) && Named(r[2], Bgb);
    assert Tagged(r[1]) && Named(r[1], Soc);
    assert 3 in VisibleTagged(r);
    r
  }

  /**
   * Whatever the user does in the menu, exactly one biomass layer of this map
   * shows, and it is the one whose switch is on.
   */
  lemma AlwaysOneBiomassLayerShows(actions: seq<Action>)
    ensures var r := Run(Controls(InitialFlags, Stack()), actions);
      exists k :: 0 <= k < |r.layers| && VisibleTagged(r.layers) == {k} && FlagOf(r.flags, r.layers[k].name.GetOr(""))
  {
    var c := Controls(InitialFlags, Stack());
    assert InSync(c);
    AlwaysOneBiomassLayer(c, actions);
  }

  /**
   * After any actions, the menu's highway and hydrography switches reach this
   * map's highway and hydrography layers, and only those.
   */
  lemma StaticSwitchesReachTheirLayers(actions: seq<Action>, on: bool)
    ensures var before := Run(Controls(InitialFlags, Stack()), actions);
      var r := Step(before, StaticSwitch(Highways, on));
      && |r.layers| == |Stack()|
      && r.layers[4].visible == on
      && forall i :: 0 <= i < |r.layers| && i != 4 ==> r.layers[i] == before.layers[i]
    ensures var before := Run(Controls(InitialFlags, Stack()), actions);
      var r := Step(before, StaticSwitch(Hidrography, on));
      && |r.layers| == |Stack()|
      && r.layers[5].visible == on
      && forall i :: 0 <= i < |r.layers| && i != 5 ==> r.layers[i] == before.layers[i]
  {
    var c := Controls(InitialFlags, Stack());
    StaticSwitchReachesItsLayer(c, actions, Highways, on, 4);
    StaticSwitchReachesItsLayer(c, actions, Hidrography, on, 5);
  }

  /** The AGB, BGB and SOC sources (the popup's order): the view's year and code on all three. */
  function BiomassSources(base: string, v: ViewState): (r: seq<Source>)
    ensures |r| == 3
    ensures forall i :: 0 <= i < 3 ==> r[i].year == Some(v.year) && r[i].code == Some(v.selected.code) && r[i].ws.None?
  {
    ProductSources(base, "Drainage", Some(v.year), Some(v.selected.code), None)
  }

  /** The highway, hydrography and station sources: the view's code, no year. */
  function StaticSources(base: string, v: ViewState): (r: seq<Source>)
    ensures |r| == 3
    ensures forall i :: 0 <= i < 3 ==> r[i].year.None? && r[i].code == Some(v.selected.code) && r[i].ws.None?
  {
    [ Source(base + "highwaysDrainage.map", "Rodovias", None, Some(v.selected.code), None),
      Source(base + "hidrographyDrainage.map", "hidrografia", None, Some(v.selected.code), None),
      Source(base + "estacoesFluviometricas.map", "estacoes", None, Some(v.selected.code), None) ]
  }

  /** `handleYear`: only the year changes. */
  function HandleYear(v: ViewState, y: int): (r: ViewState)
    ensures r.year == y && r.selected == v.selected
  {
    v.(year := y)
  }

  /**
   * `handleCodeName`: the label becomes the selection's name and its code is
   * the label's second segment read in base 10; a label without separator
   * selects code NaN.
   */
  function HandleCodeName(v: ViewState, text: string): (r: ViewState)
    ensures r.year == v.year && r.selected.name == text
    ensures !Contains(text, Separator) ==> r.selected.code.NaN?
  {
    v.(selected := Selected(CodeOfDecimal(text), text))
  }

  /**
   * Choosing a drop-down label built from a safe name and a code puts that
   * code into every source of the map, and the year is kept.
   */
  lemma SelectionReachesEverySource(v: ViewState, base: string, name: string, code: nat)
    requires SafeName(name)
    ensures var w := HandleCodeName(v, Format(name, code));
      && w.year == v.year
      && (forall s :: s in BiomassSources(base, w) ==> s.code == Some(Finite(code)) && s.year == Some(v.year))
      && (forall s :: s in StaticSources(base, w) ==> s.code == Some(Finite(code)))
  {
    FormatThenParse(name, code);
  }

  /** The page's default label is the menu's label for the default record ... */
  lemma DefaultLabelIsFormatted()
    ensures Format("RIO DE ONDAS", 46543000) == DefaultSelected.name
  {
    DefaultCodeText();
    assert "RIO DE ONDAS" + Separator + "46543000" == "RIO DE ONDAS - 46543000";
  }

  /** The decimal text of the default code, one digit at a time. */
  lemma DefaultCodeText()
    ensures NatToString(46543000) == "46543000"
  {
    assert NatToString(4) == "4";
    assert NatToString(46) == "46";
    assert NatToString(465) == "465";
    assert NatToString(4654) == "4654";
    assert NatToString(46543) == "46543";
    assert NatToString(465430) == "465430";
    assert NatToString(4654300) == "4654300";
  }

  /** ... so it parses back to the page's default code. */
  lemma DefaultLabelParses(v: ViewState)
    ensures HandleCodeName(v, Format("RIO DE ONDAS", 46543000)).selected.code == DefaultSelected.code
  {
    NoDashIsSafe("RIO DE ONDAS");
    FormatThenParse("RIO DE ONDAS", 46543000);
  }

  /** The centroids the view centres on after the label `text` is chosen. */
  function CentroidsFor(records: seq<GeomRecord>, text: string): (r: seq<string>) {
    CentroidsWithCode(records, HandleCodeName(InitialState, text).selected.code)
  }

  /**
   * For a label built from a safe name and a code, the view centres on
   * exactly the centroids of the records carrying that code, in record order;
   * when one record alone carries it, the list is that record's centroid.
   */
  lemma CentreFollowsTheLabel(records: seq<GeomRecord>, name: string, code: nat)
    requires SafeName(name)
    ensures var r := CentroidsFor(records, Format(name, code));
      && r == CentroidsWithCode(records, Finite(code))
      && (forall i :: 0 <= i < |records| && records[i].code == code ==> records[i].centroid in r)
      && (forall c :: c in r ==> exists i :: 0 <= i < |records| && records[i].code == code && records[i].centroid == c)
      && (forall k :: 0 <= k < |records| && records[k].code == code && (forall j :: 0 <= j < |records| && j != k ==> records[j].code != code) ==>
            r == [records[k].centroid])
  {
    FormatThenParse(name, code);
    forall k | 0 <= k < |records| && records[k].code == code && (forall j :: 0 <= j < |records| && j != k ==> records[j].code != code)
      ensures CentroidsWithCode(records, Finite(code)) == [records[k].centroid]
    {
      OneCodeMatch(records, Finite(code), k);
    }
  }

  // ---------------------------------------------------------------------------
  // The selection the menu builds its download link from

  /**
   * As written, the view hands the menu the page's default selection, not its
   * own state, so the download link never follows the drop-down.
   */
  function MenuSelectionAsWritten(v: ViewState): (r: Selected)
    ensures r.code == Finite(46543000)
  {
    DefaultSelected
  }

  /** After any other drainage area is chosen, the link as written still names the default one. */
  lemma AsWrittenLinkIgnoresSelection(v: ViewState, name: string, code: nat)
    requires SafeName(name) && code != 46543000
    ensures var w := HandleCodeName(v, Format(name, code));
      MenuSelectionAsWritten(w).code != w.selected.code
  {
    FormatThenParse(name, code);
  }

  /** One such choice: the label "X - 5", whose name "X" is safe. */
  lemma AsWrittenLinkIgnoresX5()
    ensures var w := HandleCodeName(InitialState, Format("X", 5));
      w.selected.code == Finite(5) && MenuSelectionAsWritten(w).code == Finite(46543000)
  {
    assert SafeName("X") by {
      forall i: nat | i <= 2
        ensures !OccursAt("X ", Separator, i)
      {
      }
    }
    FormatThenParse("X", 5);
  }

  /**
   * Corrected wiring: handing the menu the view's own selection, as the county
   * view does, makes the link's directory name the code of the chosen label.
   */
  lemma LinkFollowsSelection(v: ViewState, name: string, code: nat)
    requires SafeName(name)
    ensures var w := HandleCodeName(v, Format(name, code));
      UrlDir("drainage", None, Some(w.selected)) == FtpRoot + "drainage/" + NatToString(code)
  {
    FormatThenParse(name, code);
  }
}
