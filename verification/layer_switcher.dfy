/**
 * One row of the side menu for a biomass layer: the on/off switch, the
 * opacity slider, the legend and the download/FTP links.
 */
module LayerSwitcher {
  import opened Wrappers
  import opened Strings
  import opened Layers

  /** The properties the menu renders a switcher with. */
  datatype Switcher = Switcher(
    name: string,
    layerIsVisible: bool,
    legendIsVisible: bool,
    layerInfoIsVisible: bool,
    downloadUrl: Option<string>)

  /** A call of the menu's `handleLayerVisibility(e, id)`. */
  datatype VisibilityCall = VisibilityCall(e: bool, id: string)

  /** A call of the menu's `handleLayerOpacity(opacity, name)`. */
  datatype OpacityCall = OpacityCall(opacity: Tenths, name: string)

  /** `handleVisibility(_e, _obj, id)`: forwards the negation of the switcher's current state. */
  function HandleVisibility(sw: Switcher, id: string): (c: VisibilityCall)
    ensures c.e != sw.layerIsVisible && c.id == id
  {
    VisibilityCall(!sw.layerIsVisible, id)
  }

  /** The switch is disabled exactly while its layer is on. */
  predicate Disabled(sw: Switcher) {
    sw.layerIsVisible
  }

  /**
   * A click on the switch. A disabled switch ignores it; otherwise the switch
   * reports its own id, which is the switcher's name. The only call that can
   * reach the menu from a switch therefore switches a layer on.
   */
  function Click(sw: Switcher): (r: Option<VisibilityCall>)
    ensures r.Some? <==> !sw.layerIsVisible
    ensures r.Some? ==> r.value == VisibilityCall(true, sw.name)
  {
    if Disabled(sw) then None else Some(HandleVisibility(sw, sw.name))
  }

  /** `handleOpacity(opacity)`: the slider's value, paired with this switcher's own name. */
  function HandleOpacity(sw: Switcher, opacity: Tenths): (c: OpacityCall)
    ensures c.name == sw.name && c.opacity == opacity
  {
    OpacityCall(opacity, sw.name)
  }

  /** The slider runs from 0 to 1 in steps of 0.1 and starts at 1; in tenths: */
  const SliderMin: Tenths := 0
  const SliderMax: Tenths := 10
  const SliderDefault: Tenths := 10

  /** The opacity a slider position stands for. */
  function OpacityOf(t: Tenths): (r: real)
    ensures 0.0 <= r <= 1.0
    ensures t == SliderDefault ==> r == 1.0
  {
    t as real / 10.0
  }

  /**
   * The FTP link: `url.substring(0, url.lastIndexOf('/'))`. With no '/' the
   * index is -1, which `substring` treats as 0, giving the empty string.
   */
  function Directory(url: string): (r: string)
    ensures r <= url
    ensures '/' in url ==> |r| < |url| && url[|r|] == '/' && forall j :: |r| < j < |url| ==> url[j] != '/'
    ensures '/' !in url ==> r == ""
  {
    match LastIndexOf(url, '/')
    case None => ""
    case Some(k) => url[..k]
  }

  /** `downloadURL?.substring(...)`: no link when there is no download URL. */
  function FtpUrl(downloadUrl: Option<string>): (r: Option<string>)
    ensures r.None? <==> downloadUrl.None?
    ensures r.Some? ==> r.value <= downloadUrl.value
  {
    match downloadUrl
    case None => None
    case Some(u) => Some(Directory(u))
  }

  /** The directory of `dir/file` is `dir` whenever the file part holds no '/'. */
  lemma DirectoryOfPath(dir: string, file: string)
    requires forall i :: 0 <= i < |file| ==> file[i] != '/'
    ensures Directory(dir + "/" + file) == dir
  {
    var url := dir + "/" + file;
    var k := LastIndexOf(url, '/');
    assert url[|dir|] == '/';
    assert k.Some? && k.value >= |dir|;
    assert url[..|dir|] == dir;
  }

  /** The legend the switcher shows, and the links it offers. */
  datatype Legend = Legend(name: string, isVisible: bool)
  datatype LayerInfo = LayerInfo(download: Option<string>, ftp: Option<string>)
  datatype View = View(legend: Option<Legend>, info: Option<LayerInfo>)

  /** The legend and link blocks appear only when their flags are set. */
  function Render(sw: Switcher): (v: View)
    ensures v.legend.Some? <==> sw.legendIsVisible
    ensures v.legend.Some? ==> v.legend.value == Legend(sw.name, sw.layerIsVisible)
    ensures v.info.Some? <==> sw.layerInfoIsVisible
    ensures v.info.Some? ==> v.info.value.download == sw.downloadUrl
    ensures v.info.Some? ==> v.info.value.ftp == FtpUrl(sw.downloadUrl)
  {
    View(
      if sw.legendIsVisible then Some(Legend(sw.name, sw.layerIsVisible)) else None,
      if sw.layerInfoIsVisible then Some(LayerInfo(sw.downloadUrl, FtpUrl(sw.downloadUrl))) else None)
  }
}
