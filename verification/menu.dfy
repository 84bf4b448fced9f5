/**
 * The side menu: the three biomass switch flags and the handler that keeps
 * them and the map in step, the opacity and static-layer handlers, the
 * collapse toggle, the year list, and the download links.
 */
module Menu {
  import opened Wrappers
  import opened Strings
  import opened Layers
  import opened CodeNames
  import opened LayerSwitcher

  const Agb: string := "agb"
  const Bgb: string := "bgb"
  const Soc: string := "soc"

  /** The three names the biomass switchers are wired with. */
  predicate IsBiomassName(n: string) {
    n == Agb || n == Bgb || n == Soc
  }

  /** The switch flags `agbVisible`, `bgbVisible`, `socVisible`. */
  datatype Flags = Flags(agb: bool, bgb: bool, soc: bool)

  /** The menu opens with the AGB switch on. */
  const InitialFlags: Flags := Flags(true, false, false)

  /** The flag of the switcher wired with name `n`; false for any other name. */
  function FlagOf(f: Flags, n: string): (r: bool) {
    if n == Agb then f.agb else if n == Bgb then f.bgb else if n == Soc then f.soc else false
  }

  /** Exactly one of the three flags is set. */
  predicate ExactlyOneFlag(f: Flags) {
    (f.agb && !f.bgb && !f.soc) || (!f.agb && f.bgb && !f.soc) || (!f.agb && !f.bgb && f.soc)
  }

  /**
   * The flag part of the visibility handler: for one of the three names, that
   * flag becomes `e` and the other two `!e`; any other name leaves the flags.
   */
  function SetFlags(f: Flags, e: bool, n: string): (r: Flags)
    ensures IsBiomassName(n) ==> forall m :: IsBiomassName(m) ==> FlagOf(r, m) == (if m == n then e else !e)
    ensures !IsBiomassName(n) ==> r == f
  {
    var f1 := if n == Agb then Flags(e, !e, !e) else f;
    var f2 := if n == Bgb then Flags(!e, e, !e) else f1;
    if n == Soc then Flags(!e, !e, e) else f2
  }

  /** Switching on one of the three names leaves exactly that flag set. */
  lemma SwitchOnSetsOneFlag(f: Flags, n: string)
    requires IsBiomassName(n)
    ensures ExactlyOneFlag(SetFlags(f, true, n))
    ensures FlagOf(SetFlags(f, true, n), n)
  {
    assert FlagOf(SetFlags(f, true, n), Agb) == (n == Agb);
    assert FlagOf(SetFlags(f, true, n), Bgb) == (n == Bgb);
    assert FlagOf(SetFlags(f, true, n), Soc) == (n == Soc);
  }

  /** What the menu's handlers act on: the switch flags and the map's layer stack. */
  datatype Controls = Controls(flags: Flags, layers: seq<Layer>)

  /** `handleLayerVisibility(e, n)`: flags first, then every layer of the map. */
  function HandleLayerVisibility(c: Controls, e: bool, n: string): (r: Controls)
    ensures IsBiomassName(n) ==> forall m :: IsBiomassName(m) ==> FlagOf(r.flags, m) == (if m == n then e else !e)
    ensures !IsBiomassName(n) ==> r.flags == c.flags
    ensures |r.layers| == |c.layers|
    ensures forall i :: 0 <= i < |r.layers| && !Tagged(c.layers[i]) ==> r.layers[i] == c.layers[i]
    ensures forall i :: 0 <= i < |r.layers| && Tagged(c.layers[i]) ==>
      r.layers[i] == c.layers[i].(visible := if Named(c.layers[i], n) then e else !e)
  {
    Controls(SetFlags(c.flags, e, n), ApplyExclusive(c.layers, e, n))
  }

  /** `handleLayerOpacity(o, n)`: only the opacity of the layers named `n` changes. */
  function HandleLayerOpacity(c: Controls, o: Tenths, n: string): (r: Controls)
    ensures r.flags == c.flags && |r.layers| == |c.layers|
    ensures forall i :: 0 <= i < |r.layers| ==> r.layers[i].visible == c.layers[i].visible
    ensures forall i :: 0 <= i < |r.layers| && !Named(c.layers[i], n) ==> r.layers[i] == c.layers[i]
    ensures forall i :: 0 <= i < |r.layers| && Named(c.layers[i], n) ==> r.layers[i].opacity == o
  {
    c.(layers := SetOpacity(c.layers, o, n))
  }

  /** `handleStaticLayerVisibility(e, n)`: only the visibility of the layers named `n` changes. */
  function HandleStaticLayerVisibility(c: Controls, e: bool, n: string): (r: Controls)
    ensures r.flags == c.flags && |r.layers| == |c.layers|
    ensures forall i :: 0 <= i < |r.layers| ==> SameButVisibility(c.layers[i], r.layers[i])
    ensures forall i :: 0 <= i < |r.layers| && !Named(c.layers[i], n) ==> r.layers[i] == c.layers[i]
    ensures forall i :: 0 <= i < |r.layers| && Named(c.layers[i], n) ==> r.layers[i].visible == e
  {
    c.(layers := SetVisibleNamed(c.layers, e, n))
  }

  /** Calling the visibility handler twice with the same arguments is the same as calling it once. */
  lemma {:induction false} VisibilityHandlerIsIdempotent(c: Controls, e: bool, n: string)
    ensures HandleLayerVisibility(HandleLayerVisibility(c, e, n), e, n) == HandleLayerVisibility(c, e, n)
  {
    ExclusiveIsIdempotent(c.layers, e, n);
    var f := SetFlags(c.flags, e, n);
    if IsBiomassName(n) {
      assert FlagOf(SetFlags(f, e, n), Agb) == FlagOf(f, Agb);
      assert FlagOf(SetFlags(f, e, n), Bgb) == FlagOf(f, Bgb);
      assert FlagOf(SetFlags(f, e, n), Soc) == FlagOf(f, Soc);
    }
  }

  // ---------------------------------------------------------------------------
  // Collapse toggle and year list

  /** `handleMenu`: 0 becomes 1, anything else becomes 0. */
  function HandleMenu(hidden: int): (r: int)
    ensures hidden == 0 <==> r == 1
    ensures r == 0 || r == 1
  {
    if hidden == 0 then 1 else 0
  }

  /** On the values the menu uses, the toggle undoes itself. */
  lemma HandleMenuIsAnInvolution(hidden: int)
    requires hidden == 0 || hidden == 1
    ensures HandleMenu(HandleMenu(hidden)) == hidden
  {
  }

  const FirstYear: int := 1990
  const YearCount: nat := 29

  /** The year options: `Array.from(new Array(29), (_, index) => index + 1990)`. */
  method YearList() returns (years: seq<int>)
    ensures |years| == YearCount
    ensures forall i :: 0 <= i < |years| ==> years[i] == FirstYear + i
    ensures years[0] == 1990 && years[|years| - 1] == 2018
  {
    years := [];
    var index := 0;
    while index < YearCount
      invariant 0 <= index <= YearCount
      invariant |years| == index
      invariant forall i :: 0 <= i < index ==> years[i] == FirstYear + i
    {
      years := years + [index + FirstYear];
      index := index + 1;
    }
  }

  // ---------------------------------------------------------------------------
  // Download links

  const FtpRoot: string := "ftp://obahia.dea.ufv.br/biomass/"

  /** `${w?.toLowerCase()}`: the lower-cased watershed, or "undefined". */
  function WatershedText(watershed: Option<string>): (r: string) {
    match watershed
    case Some(w) => ToLower(w)
    case None => "undefined"
  }

  /** `${c?.code}`: the selected code, or "undefined". */
  function CodeText(selected: Option<Selected>): (r: string) {
    match selected
    case Some(s) => NumberToString(s.code)
    case None => "undefined"
  }

  /** The categories whose download link the menu builds. */
  predicate KnownCategory(category: string) {
    category == "regional" || category == "gcc" || category == "drainage" || category == "counties"
  }

  /** The FTP directory a download link points into; it never holds a capital 'A'. */
  function UrlDir(category: string, watershed: Option<string>, selected: Option<Selected>): (r: string)
    ensures NoCapitalA(r)
  {
    PlaceTextsHaveNoCapitalA(watershed, selected);
    FtpRootHasNoCapitalA();
    if category == "regional" then
      NoCapitalAConcat(FtpRoot, "region");
      FtpRoot + "region"
    else if category == "gcc" then
      NoCapitalAConcat(FtpRoot, "gcc/");
      NoCapitalAConcat(FtpRoot + "gcc/", WatershedText(watershed));
      FtpRoot + "gcc/" + WatershedText(watershed)
    else if category == "drainage" then
      NoCapitalAConcat(FtpRoot, "drainage/");
      NoCapitalAConcat(FtpRoot + "drainage/", CodeText(selected));
      FtpRoot + "drainage/" + CodeText(selected)
    else
      NoCapitalAConcat(FtpRoot, "cities");
      FtpRoot + "cities"
  }

  /** The part of a download link before the product name. */
  function UrlPrefix(category: string, watershed: Option<string>, selected: Option<Selected>): (r: string)
    ensures NoCapitalA(r)
  {
    NoCapitalAConcat(UrlDir(category, watershed, selected), "/");
    UrlDir(category, watershed, selected) + "/"
  }

  /** The part of a download link after the product name. */
  function UrlSuffix(category: string, year: int, selected: Option<Selected>): (r: string) {
    var y := IntToString(year);
    if category == "regional" || category == "gcc" then y + ".tif"
    else "_" + CodeText(selected) + "_" + y + ".tif"
  }

  /**
   * The file of `product` ("AGB", "BGB" or "SOC") for a category, a year and
   * the selected place, as the menu's template literals spell it:
   *   regional  ftp://obahia.dea.ufv.br/biomass/region/AGB<year>.tif
   *   gcc       ftp://obahia.dea.ufv.br/biomass/gcc/<watershed>/AGB<year>.tif
   *   drainage  ftp://obahia.dea.ufv.br/biomass/drainage/<code>/AGB_<code>_<year>.tif
   *   counties  ftp://obahia.dea.ufv.br/biomass/cities/AGB_<code>_<year>.tif
   * and None for a category outside those four.
   */
  function ProductUrl(product: string, category: string, year: int, watershed: Option<string>,
                      selected: Option<Selected>): (r: Option<string>)
    ensures r.Some? <==> KnownCategory(category)
    ensures category == "regional" ==>
      r == Some(FtpRoot + "region" + "/" + product + IntToString(year) + ".tif")
    ensures category == "gcc" ==>
      r == Some(FtpRoot + "gcc/" + WatershedText(watershed) + "/" + product + IntToString(year) + ".tif")
    ensures category == "drainage" ==>
      r == Some(FtpRoot + "drainage/" + CodeText(selected) + "/" + product + "_" + CodeText(selected) + "_" + IntToString(year) + ".tif")
    ensures category == "counties" ==>
      r == Some(FtpRoot + "cities" + "/" + product + "_" + CodeText(selected) + "_" + IntToString(year) + ".tif")
  {
    if !KnownCategory(category) then None
    else
      var x := UrlPrefix(category, watershed, selected) + product;
      var y, c := IntToString(year), CodeText(selected);
      if category == "regional" || category == "gcc" then
        AppendTwo(x, y, ".tif");
        Some(x + UrlSuffix(category, year, selected))
      else
        AppendFour(x, "_", c, "_", y, ".tif");
        Some(x + UrlSuffix(category, year, selected))
  }

  lemma AppendTwo(x: string, a: string, b: string)
    ensures x + (a + b) == x + a + b
  {
  }

  lemma AppendFour(x: string, a: string, b: string, c: string, d: string, e: string)
    ensures x + (a + b + c + d + e) == x + a + b + c + d + e
  {
  }

  /** The effect that sets `downloadURL`: the AGB file, or the previous link for an unknown category. */
  function DownloadUrl(previous: string, category: string, year: int, watershed: Option<string>,
                       selected: Option<Selected>): (r: string)
    ensures ProductUrl("AGB", category, year, watershed, selected).None? ==> r == previous
  {
    ProductUrl("AGB", category, year, watershed, selected).GetOr(previous)
  }

  /** The BGB switcher's link: `downloadURL.replace('AGB', 'BGB')`. */
  function BgbUrl(downloadUrl: string): (r: string)
    ensures |r| == |downloadUrl|
    ensures !Contains(downloadUrl, "AGB") ==> r == downloadUrl
    ensures forall p: nat :: FirstOccurrence(downloadUrl, "AGB", p) ==>
      r == downloadUrl[..p] + "BGB" + downloadUrl[p + 3..]
  {
    ReplaceFirst(downloadUrl, "AGB", "BGB")
  }

  /** The SOC switcher's link: `downloadURL.replace('AGB', 'SOC')`. */
  function SocUrl(downloadUrl: string): (r: string)
    ensures |r| == |downloadUrl|
    ensures !Contains(downloadUrl, "AGB") ==> r == downloadUrl
    ensures forall p: nat :: FirstOccurrence(downloadUrl, "AGB", p) ==>
      r == downloadUrl[..p] + "SOC" + downloadUrl[p + 3..]
  {
    ReplaceFirst(downloadUrl, "AGB", "SOC")
  }

  predicate NoCapitalA(s: string) {
    forall i :: 0 <= i < |s| ==> s[i] != 'A'
  }

  lemma NumberTextHasNoCapitalA(x: JsNumber)
    ensures NoCapitalA(NumberToString(x))
  {
    match x
    case NaN =>
    case Finite(i) =>
      var d := if i < 0 then NatToString(-i) else NatToString(i);
      assert AllDigits(d);
  }

  lemma NoCapitalAConcat(a: string, b: string)
    requires NoCapitalA(a) && NoCapitalA(b)
    ensures NoCapitalA(a + b)
  {
    forall i | 0 <= i < |a + b| ensures (a + b)[i] != 'A' {
      if i < |a| { assert (a + b)[i] == a[i]; } else { assert (a + b)[i] == b[i - |a|]; }
    }
  }

  lemma PlaceTextsHaveNoCapitalA(watershed: Option<string>, selected: Option<Selected>)
    ensures NoCapitalA(WatershedText(watershed))
    ensures NoCapitalA(CodeText(selected))
  {
    var w := WatershedText(watershed);
    if watershed.Some? {
      forall i | 0 <= i < |w| ensures w[i] != 'A' {
        assert !IsUpper(w[i]);
      }
    }
    if selected.Some? {
      NumberTextHasNoCapitalA(selected.value.code);
    }
  }

  /** Replacing the first "AGB" after a prefix free of 'A' swaps in the other product. */
  lemma SwapProduct(pre: string, rest: string, product: string)
    requires NoCapitalA(pre)
    ensures ReplaceFirst(pre + "AGB" + rest, "AGB", product) == pre + product + rest
  {
    ReplaceAfterPrefix(pre, "AGB", product, rest);
  }

  lemma FtpRootHasNoCapitalA()
    ensures NoCapitalA(FtpRoot)
  {
  }

  /**
   * The BGB and SOC links name the same place and year as the AGB link: for
   * every category the menu knows, replacing the first "AGB" of the AGB file
   * gives the file of the other product.
   */
  lemma DerivedUrlsNameTheOtherProduct(product: string, category: string, year: int,
                                       watershed: Option<string>, selected: Option<Selected>)
    requires KnownCategory(category)
    ensures ReplaceFirst(DownloadUrl("", category, year, watershed, selected), "AGB", product)
      == ProductUrl(product, category, year, watershed, selected).value
  {
    SwapProduct(UrlPrefix(category, watershed, selected), UrlSuffix(category, year, selected), product);
  }

  /** Before the effect runs the link is empty, and so are the derived links. */
  lemma EmptyLinkStaysEmpty()
    ensures BgbUrl("") == "" && SocUrl("") == ""
  {
    assert !Contains("", "AGB");
  }

  // ---------------------------------------------------------------------------
  // The three biomass switchers

  predicate NoSlash(s: string) {
    forall i :: 0 <= i < |s| ==> s[i] != '/'
  }

  lemma NoSlashConcat(a: string, b: string)
    requires NoSlash(a) && NoSlash(b)
    ensures NoSlash(a + b)
  {
    forall i | 0 <= i < |a + b| ensures (a + b)[i] != '/' {
      if i < |a| { assert (a + b)[i] == a[i]; } else { assert (a + b)[i] == b[i - |a|]; }
    }
  }

  lemma NumberTextHasNoSlash(x: JsNumber)
    ensures NoSlash(NumberToString(x))
  {
    match x
    case NaN =>
    case Finite(i) =>
      var d := if i < 0 then NatToString(-i) else NatToString(i);
      assert AllDigits(d);
  }

  /** The file part of a download link holds no '/' when the product name holds none. */
  lemma FileNameHasNoSlash(product: string, category: string, year: int, selected: Option<Selected>)
    requires NoSlash(product)
    ensures NoSlash(product + UrlSuffix(category, year, selected))
  {
    var y := IntToString(year);
    NumberTextHasNoSlash(Finite(year));
    var c := CodeText(selected);
    assert NoSlash(c) by {
      if selected.Some? { NumberTextHasNoSlash(selected.value.code); }
    }
    NoSlashConcat(y, ".tif");
    NoSlashConcat("_", c);
    NoSlashConcat("_" + c, "_");
    NoSlashConcat("_" + c + "_", y);
    NoSlashConcat("_" + c + "_" + y, ".tif");
    NoSlashConcat(product, UrlSuffix(category, year, selected));
  }

  /** The switchers the menu renders for AGB, BGB and SOC, in that order. */
  function Switchers(flags: Flags, downloadUrl: string): (r: seq<Switcher>)
    ensures |r| == 3
    ensures r[0].name == Agb && r[1].name == Bgb && r[2].name == Soc
    ensures forall i :: 0 <= i < 3 ==> r[i].layerIsVisible == FlagOf(flags, r[i].name)
  {
    [ Switcher(Agb, flags.agb, true, true, Some(downloadUrl)),
      Switcher(Bgb, flags.bgb, true, true, Some(BgbUrl(downloadUrl))),
      Switcher(Soc, flags.soc, true, true, Some(SocUrl(downloadUrl))) ]
  }

  /** The FTP link of a product's file is the directory that holds it. */
  lemma ProductDirectory(product: string, category: string, year: int, watershed: Option<string>,
                         selected: Option<Selected>)
    requires KnownCategory(category) && NoSlash(product)
    ensures FtpUrl(ProductUrl(product, category, year, watershed, selected)) == Some(UrlDir(category, watershed, selected))
  {
    var dir := UrlDir(category, watershed, selected);
    var suffix := UrlSuffix(category, year, selected);
    FileNameHasNoSlash(product, category, year, selected);
    assert dir + "/" + product + suffix == dir + "/" + (product + suffix);
    DirectoryOfPath(dir, product + suffix);
  }

  /**
   * For every category the menu knows, the three switchers link to the
   * files of their own products.
   */
  lemma SwitcherDownloads(flags: Flags, category: string, year: int, watershed: Option<string>,
                          selected: Option<Selected>)
    requires KnownCategory(category)
    ensures var sws := Switchers(flags, DownloadUrl("", category, year, watershed, selected));
      && sws[0].downloadUrl == ProductUrl("AGB", category, year, watershed, selected)
      && sws[1].downloadUrl == ProductUrl("BGB", category, year, watershed, selected)
      && sws[2].downloadUrl == ProductUrl("SOC", category, year, watershed, selected)
  {
    DerivedUrlsNameTheOtherProduct("BGB", category, year, watershed, selected);
    DerivedUrlsNameTheOtherProduct("SOC", category, year, watershed, selected);
  }

  /** ... and all three FTP links open the one directory holding those files. */
  lemma SwitcherFtpLinks(flags: Flags, category: string, year: int, watershed: Option<string>,
                         selected: Option<Selected>)
    requires KnownCategory(category)
    ensures var sws := Switchers(flags, DownloadUrl("", category, year, watershed, selected));
      var dir := Some(UrlDir(category, watershed, selected));
      FtpUrl(sws[0].downloadUrl) == dir && FtpUrl(sws[1].downloadUrl) == dir && FtpUrl(sws[2].downloadUrl) == dir
  {
    SwitcherDownloads(flags, category, year, watershed, selected);
    ProductNamesHaveNoSlash();
    ProductDirectory("AGB", category, year, watershed, selected);
    ProductDirectory("BGB", category, year, watershed, selected);
    ProductDirectory("SOC", category, year, watershed, selected);
  }

  lemma ProductNamesHaveNoSlash()
    ensures NoSlash("AGB") && NoSlash("BGB") && NoSlash("SOC")
  {
  }
}

