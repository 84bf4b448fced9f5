# obahia-biomass layer controller, in Dafny

obahia-biomass is a web map of above-ground biomass (AGB), below-ground
biomass (BGB) and soil organic carbon (SOC) for western Bahia. Four map views
(region, watershed, drainage area, county) each build an OpenLayers layer
stack and WMS sources; a side menu switches the three biomass layers on and
off, sets their opacity, toggles the static layers and builds the download
links; a click popup shows the three values under the clicked point.

This project models the controller logic behind those screens as pure Dafny
functions over immutable data and proves what it promises:

- `layers.dfy` (`Layers`): the layer record (name, class, visibility, opacity
  in tenths), WMS sources, and the three map updates the menu performs.
- `menu.dfy` (`Menu`): the switch flags, the visibility/opacity/static
  handlers, the collapse toggle, the year list, the download links per
  category and the BGB/SOC links derived from the AGB one, and the three
  biomass switchers the menu renders.
- `layer_switcher.dfy` (`LayerSwitcher`): the switch (negation, disabled while
  on), the opacity slider, the legend and link blocks, the FTP directory link.
- `popup.dfy` (`Popup`): the popup as an event-driven record (click, tagged
  response, close), its rendering, the click listeners that pile up across
  renders and the requests one click issues through them, and the hover
  cursor rule.
- `code_names.dfy` (`CodeNames`): drop-down labels `name - code` and their
  parsing back to a code.
- `strings.dfy` (`Strings`): the JavaScript string and number operations the
  above rely on (`indexOf`, `lastIndexOf`, `replace`, `toLowerCase`,
  `toUpperCase`, `${n}`, `parseInt` with and without radix).
- `lookup.dfy` (`Lookup`): the centroid filters run on the geometry service's
  answer.
- `map_drainage.dfy`, `map_county.dfy`, `map_watershed.dfy`, `map_region.dfy`:
  each view's initial stack, sources and selection handlers.
- `session.dfy` (`Session`): any sequence of menu actions (switch clicks,
  slider moves, static switches) applied to a map, and the invariant that
  keeps exactly one biomass layer visible, the one whose switch is on.
- `wrappers.dfy` (`Wrappers`): `Option`.

JavaScript's `undefined` is `None`; a number the code can produce is an
integer or NaN (`Strings.JsNumber`); strings are `seq<char>`.

## Model

| member | source | states |
|---|---|---|
| Layers.ApplyExclusive | src/components/Menu/index.tsx:156-164 | every layer outside the default class gets `e` if it carries the name and `!e` otherwise; default-class layers are untouched; names, classes and opacities never change |
| Layers.ActivationIsExclusive | src/components/Menu/index.tsx:156-164 | with unique names among the tagged layers, switching `n` on leaves exactly the tagged layer named `n` visible, or none if no tagged layer has that name |
| Layers.DeactivationShowsTheOthers | src/components/Menu/index.tsx:157-162 | switching `n` off is not exclusive: the visible tagged layers become all tagged layers not named `n` |
| Layers.ExclusiveIsIdempotent | src/components/Menu/index.tsx:156-164 | applying the map update twice with the same arguments equals applying it once |
| Layers.SetOpacity | src/components/Menu/index.tsx:168-177 | layers named `n` take the new opacity, every other layer is unchanged |
| Layers.SetVisibleNamed | src/components/Menu/index.tsx:179-190 | layers named `n` take the new visibility, every other layer is unchanged |
| Layers.OpacitySurvivesActivation | src/components/Menu/index.tsx:156-172 | an opacity set on a layer is kept by any later visibility update |
| Layers.ProductSources | src/components/MapWatershed/index.tsx:107-141 | the AGB, BGB and SOC sources read `<layer><view>.map`, carry `LAYERS` agb, bgb, soc in that order, and all three carry the same year, code and watershed parameters |
| Menu.SetFlags | src/components/Menu/index.tsx:138-154 | for one of the three names the flag of that name becomes `e` and the other two `!e`; any other name leaves the flags alone |
| Menu.SwitchOnSetsOneFlag | src/components/Menu/index.tsx:138-154 | switching on agb, bgb or soc leaves exactly that one flag set |
| Menu.HandleLayerVisibility | src/components/Menu/index.tsx:134-167 | for agb, bgb or soc the named flag becomes `e` and the other two `!e` (other names keep the flags); each tagged layer becomes visible `e` if named `n` and `!e` otherwise, with nothing else of it changed; default-class layers are untouched |
| Menu.VisibilityHandlerIsIdempotent | src/components/Menu/index.tsx:134-167 | calling the visibility handler twice with the same arguments gives the state of calling it once, flags included |
| Menu.HandleLayerOpacity | src/components/Menu/index.tsx:168-177 | only the opacity of the layers named `n` changes; flags and every visibility are kept |
| Menu.HandleStaticLayerVisibility | src/components/Menu/index.tsx:179-190 | only the visibility of the layers named `n` changes; flags, names, classes and opacities are kept |
| Menu.HandleMenu | src/components/Menu/index.tsx:118-124 | 0 maps to 1 and every other value to 0 |
| Menu.HandleMenuIsAnInvolution | src/components/Menu/index.tsx:118-124 | on 0 and 1 the toggle undoes itself |
| Menu.YearList | src/components/Menu/index.tsx:96-98 | 29 years, the i-th being 1990 + i, so 1990 through 2018 |
| Menu.UrlDir | src/components/Menu/index.tsx:261-282 | the FTP directory of a category's files never contains a capital 'A', so the first "AGB" of a link is the product name |
| Menu.ProductUrl | src/components/Menu/index.tsx:261-282 | the four template literals, one per category: `region/<product><year>.tif`, `gcc/<lower-cased watershed>/<product><year>.tif`, `drainage/<code>/<product>_<code>_<year>.tif` and `cities/<product>_<code>_<year>.tif` under the FTP root; no link for any other category |
| Menu.DownloadUrl | src/components/Menu/index.tsx:261-282 | an unknown category leaves the previous link in place |
| Menu.BgbUrl | src/components/Menu/index.tsx:402 | the BGB switcher's link is the AGB link with its first "AGB" replaced in place by "BGB", and unchanged when it holds no "AGB" |
| Menu.SocUrl | src/components/Menu/index.tsx:414 | the SOC switcher's link is the AGB link with its first "AGB" replaced in place by "SOC", and unchanged when it holds no "AGB" |
| Menu.DerivedUrlsNameTheOtherProduct | src/components/Menu/index.tsx:402 | for each of the four categories, replacing the first "AGB" of the AGB link gives exactly the other product's link for the same place and year |
| Menu.EmptyLinkStaysEmpty | src/components/Menu/index.tsx:414 | the empty initial link yields empty BGB and SOC links |
| Menu.Switchers | src/components/Menu/index.tsx:381-415 | three switchers named agb, bgb, soc, each showing its own flag |
| Menu.SwitcherDownloads | src/components/Menu/index.tsx:381-415 | the three switchers link to the AGB, BGB and SOC files of the same place and year |
| Menu.SwitcherFtpLinks | src/components/Menu/index.tsx:381-415 | all three FTP links open the one directory that holds those files |
| Menu.ProductDirectory | src/components/LayerSwitcher/index.tsx:94-97 | the FTP link of any product file is that file's directory |
| LayerSwitcher.HandleVisibility | src/components/LayerSwitcher/index.tsx:40-45 | the forwarded value is the negation of the switcher's state, with the switch's id |
| LayerSwitcher.Click | src/components/LayerSwitcher/index.tsx:127-138 | a click reaches the menu exactly when the layer is off, and then as a call switching the switcher's own name on |
| LayerSwitcher.HandleOpacity | src/components/LayerSwitcher/index.tsx:47-52 | the slider value is forwarded with the switcher's own name |
| LayerSwitcher.OpacityOf | src/components/LayerSwitcher/index.tsx:118-126 | every slider position is an opacity in [0, 1], and the default position is 1 |
| LayerSwitcher.Directory | src/components/LayerSwitcher/index.tsx:96 | the FTP link is a prefix of the URL ending just before its last '/', with no '/' after that point; a URL without '/' gives "" |
| LayerSwitcher.FtpUrl | src/components/LayerSwitcher/index.tsx:94-97 | no download URL gives no FTP link; otherwise the link is a prefix of the URL |
| LayerSwitcher.DirectoryOfPath | src/components/LayerSwitcher/index.tsx:96 | the FTP link of `dir/file` is `dir` whenever the file part holds no '/' |
| LayerSwitcher.Render | src/components/LayerSwitcher/index.tsx:56-110 | the legend appears exactly when its flag is set, the link block exactly when its flag is set, carrying the download and FTP links |
| Popup.Apply | src/components/Popup/index.tsx:30-105 | a click sets the coordinate text, unsets the display and adds an overlay at the point, clearing no row; an answer sets only its tag's row; the close handler only hides the popup |
| Popup.FieldOf | src/components/Popup/index.tsx:44-50 | tag "AGB" routes to the AGB row, "BGB" to the BGB row, every other tag to SOC |
| Popup.Write | src/components/Popup/index.tsx:44-50 | writing a row sets that row and leaves the other rows, the coordinates, the display and the overlays |
| Popup.ResponseWritesOneRow | src/components/Popup/index.tsx:38-52 | a response changes exactly the row its tag selects |
| Popup.ClickKeepsValues | src/components/Popup/index.tsx:71-107 | one listener's handling of a click sets the coordinate text, shows the popup, adds one overlay at the point, and clears no value |
| Popup.CloseOnlyHides | src/components/Popup/index.tsx:30-36 | closing sets display to none and changes nothing else |
| Popup.LastWriterWins | src/components/Popup/index.tsx:38-52 | after any event trace each row holds the value of the last response filed under it, and is unchanged if none was |
| Popup.CoordsFollowLastClick | src/components/Popup/index.tsx:88 | the coordinate row is empty exactly until the first click, and then holds the text of the last click |
| Popup.LastClickOrCloseDecidesDisplay | src/components/Popup/index.tsx:35 | the popup is shown when the latest click-or-close was a click, hidden when it was a close, and otherwise keeps its initial style |
| Popup.ClickRequests | src/components/Popup/index.tsx:77-86 | one listener issues three requests tagged AGB, BGB, SOC, to the first, second and third of the sources it holds |
| Popup.RowsComeFromTheirLayers | src/components/Popup/index.tsx:84-86 | with a view's product sources, each row is answered by the source whose layer is the row's tag in lower case |
| Popup.Register | src/components/Popup/index.tsx:54-108 | each run of the effect adds a listener holding the render's sources and keeps every earlier listener, since there is no cleanup |
| Popup.ListenersAccumulate | src/components/Popup/index.tsx:54-108 | after any sequence of renders the listeners are exactly one per render, oldest first, each with that render's sources |
| Popup.ClickAll | src/components/Popup/index.tsx:71-86 | one click issues three requests per listener, in registration order, the j-th being request j mod 3 of listener j / 3 |
| Popup.ClickWithListeners | src/components/Popup/index.tsx:71-107 | a click with n listeners adds n overlays at the clicked point, shows the popup with the click's text when n > 0, and clears no row |
| Popup.StaleYearFillsTheRow | src/components/Popup/index.tsx:54-108 | after a year change one click asks the sources of both years and adds two overlays; an answer from the previous year's AGB source that lands last is what the AGB row shows |
| Popup.AsWrittenAsksEveryRenderedYear | src/components/Popup/index.tsx:54-108 | after renders at any sequence of years, one click asks 3 sources per render, the j-th carrying the year of render j / 3 |
| Popup.RegisterWithCleanup | src/components/Popup/index.tsx:54-108 | corrected: with a cleanup, registering leaves only the new listener |
| Popup.ListenersWithCleanup | src/components/Popup/index.tsx:54-108 | corrected: after any non-empty sequence of renders, exactly the latest render's listener is left |
| Popup.CleanupAsksOnlyTheCurrentYear | src/components/Popup/index.tsx:54-108 | corrected: after renders at any years, a click asks only the three sources of the latest year, tagged AGB, BGB, SOC |
| Popup.RenderValue | src/components/Popup/index.tsx:143 | an undefined or empty value renders as the placeholder, any other value as itself |
| Popup.RenderCoords | src/components/Popup/index.tsx:166 | the coordinate row shows the click-out hint exactly when no coordinate text is set |
| Popup.LateAnswerOverwritesNewerClick | src/components/Popup/index.tsx:71-107 | with no request tagging, an answer to an earlier click lands in the row after a newer click moved the popup |
| Popup.PartialResultsShow | src/components/Popup/index.tsx:140-157 | after a click and some answers, answered rows show their values and the others show the placeholder |
| Popup.Cursor | src/components/Popup/index.tsx:55-69 | drags leave the cursor alone; otherwise it is "pointer" exactly when the pointer hits a layer outside the default class, and "" otherwise |
| Strings.IndexOf | src/components/MapDrainage/index.tsx:190 | the first occurrence of the pattern at or after the start, or none |
| Strings.IndexOfDecidesContains | src/components/MapDrainage/index.tsx:190 | the search finds something exactly when the pattern occurs |
| Strings.IndexOfIsFirst | src/components/Menu/index.tsx:402 | the first occurrence is unique and is the one the search from 0 finds |
| Strings.LastIndexOf | src/components/LayerSwitcher/index.tsx:96 | the last position holding the character, or none if it does not occur |
| Strings.ReplaceFirst | src/components/Menu/index.tsx:402 | a string without the pattern is returned as is; otherwise the first occurrence, and only it, is replaced in place, keeping the text before and after it |
| Strings.ReplaceAfterPrefix | src/components/Menu/index.tsx:414 | when the prefix cannot start the pattern, the first replacement swaps the pattern that follows the prefix |
| Strings.ToLower | src/components/Menu/index.tsx:269 | same length; each capital becomes its own lower-case letter (shifted by 'a' - 'A'); every other character is kept |
| Strings.ToUpper | src/components/MapWatershed/index.tsx:183 | same length; each lower-case letter becomes its own capital (shifted back by 'a' - 'A'); every other character is kept |
| Strings.ToLowerIs | src/components/Menu/index.tsx:269 | any text equal to the character-by-character lower case of `s` is `s.toLowerCase()` |
| Strings.ToUpperIs | src/components/MapWatershed/index.tsx:183 | any text equal to the character-by-character upper case of `s` is `s.toUpperCase()` |
| Strings.UpperOfLower | src/components/MapWatershed/index.tsx:183 | upper-casing the lower-cased text equals upper-casing the original |
| Strings.LowerOfUpper | src/components/Menu/index.tsx:269 | lower-casing the upper-cased text equals lower-casing the original |
| Strings.ToLowerConcat | src/components/Menu/index.tsx:269 | lower-casing distributes over concatenation |
| Strings.ToUpperConcat | src/components/MapWatershed/index.tsx:183 | upper-casing distributes over concatenation |
| Strings.NatToString | src/components/Menu/index.tsx:252 | the text of a number is a non-empty digit string without leading zero |
| Strings.DecimalRoundTrip | src/components/Menu/index.tsx:252 | the digits of the text of `n` denote `n` |
| Strings.IntToString | src/components/Menu/index.tsx:274 | a negative integer is printed as '-' followed by its magnitude |
| Strings.ParseIntDecimal | src/components/MapDrainage/index.tsx:190 | for every split of the text into leading white space, an optional sign and a body, the result is NaN when the body does not start with a digit, and otherwise the body's digit prefix with the sign applied; the empty text is NaN and a digit string is its decimal value |
| Strings.ParseIntAuto | src/components/MapCounty/index.tsx:173 | as `parseInt(s, 10)` when the body does not start with `0x` or `0X`; when it does, NaN without a hex digit after the prefix, and otherwise the hex-digit prefix read in base 16 with the sign applied |
| Strings.ParseIntOfDecimal | src/components/MapDrainage/index.tsx:190 | both parsers read the text of `n` back as `n` |
| Strings.ParseIntStopsAtNonDigit | src/components/MapDrainage/index.tsx:190 | parsing stops at the first character after the digits |
| Strings.ParseIntOfLeadingDigit | src/components/MapDrainage/index.tsx:190 | text that starts with a digit has no white space or sign to skip, so `parseInt(s, 10)` is the value of its digit prefix |
| Strings.TrimStart | src/components/MapCounty/index.tsx:173 | the white space `parseInt` skips: a suffix of the text, everything dropped is white space, and what is left does not start with any |
| Strings.SplitIsWhatParseIntReads | src/components/MapCounty/index.tsx:173 | every split of the text into white space, sign and body is the one `parseInt` makes: it reads exactly that sign and that body |
| Strings.SplitExists | src/components/MapCounty/index.tsx:173 | every text has such a split, so the two parse contracts cover every input |
| Strings.HexPrefixSwitchesRadix | src/components/MapCounty/index.tsx:173 | without a radix "0x1A" reads as 26, while with radix 10 it reads as 0 |
| CodeNames.SecondSegment | src/components/MapDrainage/index.tsx:190 | the second piece of the split is absent exactly when the text has no separator; otherwise it starts right after the first separator and runs to the next separator at or after that point, or to the end of the text when none follows, and so contains no separator |
| CodeNames.SegmentFrom | src/components/MapDrainage/index.tsx:190 | the text from a position up to the next separator, or to the end, holding no separator |
| CodeNames.CodeOfDecimal | src/components/MapDrainage/index.tsx:190 | a label without separator gives NaN |
| CodeNames.CodeOfAuto | src/components/MapCounty/index.tsx:173 | a label without separator gives NaN |
| CodeNames.Format | src/components/Menu/index.tsx:251-253 | the label starts with the name, has the separator " - " right after it, and ends in decimal digits whose value is the code |
| CodeNames.NoDashIsSafe | src/components/Menu/index.tsx:251-253 | a name with no '-' leaves the label's first separator right after the name |
| CodeNames.FormatThenParse | src/components/MapDrainage/index.tsx:190 | for a safe name, the label `name - code` splits back to the code's digits and both parsers return the code |
| CodeNames.NameWithSeparatorLosesCode | src/components/MapDrainage/index.tsx:190 | a name holding the separator loses the code: "A - B - 7" parses to NaN |
| CodeNames.Labels | src/components/Menu/index.tsx:248-253 | one label per record, in order, each `name - code` of that record |
| CodeNames.LabelsParseBack | src/components/Menu/index.tsx:251-253 | every label built from a safe name parses back to its own record's code |
| Lookup.CentroidsWithCode | src/components/MapCounty/index.tsx:185-187 | the filtered list in record order: as many entries as records carrying the code, the centroid of each such record at the position given by the number of matches before it, and nothing else; NaN finds none |
| Lookup.CentroidsNamed | src/components/MapWatershed/index.tsx:183-184 | the filtered list in record order: as many entries as records named with the upper-cased choice, each one's centroid at the position given by the number of matches before it |
| Lookup.Kept | src/components/MapCounty/index.tsx:186-187 | `filter` by precomputed flags: the result's length is the number of set flags, every entry is a flagged element, and each flagged element sits at the position counting the flags set before it |
| Lookup.OneCodeMatch | src/components/MapCounty/index.tsx:185-189 | when exactly one record carries the code, the filter yields exactly its centroid, so the comma-joined text `JSON.parse` reads is that one centroid |
| Lookup.OneNameMatch | src/components/MapWatershed/index.tsx:182-186 | when exactly one record has the upper-cased name, the filter yields exactly its centroid |
| Session.Step | src/components/LayerSwitcher/index.tsx:40-52 | a click on a switch that is already on does nothing; a click on an off switch switches its own product on through the visibility handler; a slider move passes its value and its own product's name to the opacity handler; a static switch goes to the static-layer handler |
| Session.StepKeepsConsistent | src/components/Menu/index.tsx:134-190 | every menu action keeps one tagged layer per biomass name, each visible exactly when its switch is on, with exactly one switch on |
| Session.RunKeepsConsistent | src/components/Menu/index.tsx:134-190 | so does every sequence of menu actions |
| Session.ConsistentShowsOneLayer | src/components/Menu/index.tsx:156-164 | in such a state exactly one tagged layer is visible, the one whose switch is on |
| Session.AlwaysOneBiomassLayer | src/components/LayerSwitcher/index.tsx:40-45 | from a consistent start, any sequence of actions ends with exactly the switched-on biomass layer visible |
| Session.UntaggedBiomassLayersNeverMove | src/components/Menu/index.tsx:157 | on a map with no tagged layer no action ever changes the visibility of the agb, bgb or soc layer |
| Session.RunKeepsShape | src/components/Menu/index.tsx:134-190 | no sequence of menu actions renames, reorders or reclasses a layer |
| Session.StaticSwitchReachesItsLayer | src/components/Menu/index.tsx:179-190 | on a map with distinct names, after any actions a static switch sets the visibility of the one layer carrying its name and leaves every other layer as it was |
| MapDrainage.Stack | src/components/MapDrainage/index.tsx:43-80 | seven layers with distinct names: the unnamed base map, soc, bgb, agb, highways, hidrography, estacoes; exactly soc, bgb, agb carry the biomass class and only agb of them is visible; base map and stations visible, highways and hydrography hidden |
| MapDrainage.AlwaysOneBiomassLayerShows | src/components/MapDrainage/index.tsx:43-80 | whatever the user does in the menu, exactly one biomass layer shows, the one whose switch is on |
| MapDrainage.StaticSwitchesReachTheirLayers | src/components/Menu/index.tsx:418-435 | after any actions the menu's highway and hydrography switches show or hide this map's highways and hidrography layers and no other layer |
| MapDrainage.BiomassSources | src/components/MapDrainage/index.tsx:121-155 | the three biomass sources carry the view's year and code |
| MapDrainage.StaticSources | src/components/MapDrainage/index.tsx:88-119 | the highway, hydrography and station sources carry the code and no year |
| MapDrainage.HandleYear | src/components/MapDrainage/index.tsx:181-186 | only the year changes |
| MapDrainage.HandleCodeName | src/components/MapDrainage/index.tsx:188-192 | the selection keeps the full label as its name and the year is kept; a label without separator selects NaN |
| MapDrainage.DefaultLabelIsFormatted | src/pages/Drainage/index.tsx:13 | the page's default label is the menu's label for RIO DE ONDAS, 46543000 |
| MapDrainage.DefaultLabelParses | src/components/MapDrainage/index.tsx:190 | that label parses back to 46543000 |
| MapDrainage.SelectionReachesEverySource | src/components/MapDrainage/index.tsx:188-192 | choosing a label of a safe name puts its code into every source and keeps the year |
| MapDrainage.CentreFollowsTheLabel | src/components/MapDrainage/index.tsx:202-204 | the chosen label's code selects the filtered list of the records carrying that code, in order; exactly one such record gives exactly its centroid |
| MapDrainage.MenuSelectionAsWritten | src/components/MapDrainage/index.tsx:229 | the menu receives the page's default drainage area, whatever the view's state |
| MapDrainage.AsWrittenLinkIgnoresSelection | src/components/MapDrainage/index.tsx:229 | after choosing any other drainage area, the menu's code differs from the view's |
| MapDrainage.AsWrittenLinkIgnoresX5 | src/components/MapDrainage/index.tsx:229 | after choosing "X - 5" the view selects 5 while the menu still holds 46543000 |
| MapDrainage.LinkFollowsSelection | src/components/Menu/index.tsx:272-275 | with the corrected wiring, the view's own selection handed to the menu as the county view does, the download directory names the chosen label's code |
| MapCounty.Stack | src/components/MapCounty/index.tsx:43-78 | six layers with distinct names: the unnamed base map, soc, bgb, agb, highways, hidrography; exactly soc, bgb, agb carry the biomass class and only agb of them is visible; highways and hydrography hidden |
| MapCounty.AlwaysOneBiomassLayerShows | src/components/MapCounty/index.tsx:43-78 | whatever the user does in the menu, exactly one biomass layer shows, the one whose switch is on |
| MapCounty.StaticSwitchesReachTheirLayers | src/components/Menu/index.tsx:418-435 | after any actions the menu's highway and hydrography switches show or hide this map's highways and hidrography layers and no other layer |
| MapCounty.BiomassSources | src/components/MapCounty/index.tsx:108-142 | the three biomass sources carry the view's year and code |
| MapCounty.StaticSources | src/components/MapCounty/index.tsx:86-106 | the highway and hydrography sources carry the code and no year |
| MapCounty.HandleYear | src/components/MapCounty/index.tsx:164-169 | only the year changes |
| MapCounty.HandleCodeName | src/components/MapCounty/index.tsx:171-175 | the selection keeps the full label as its name and the year is kept; a label without separator selects NaN |
| MapCounty.DefaultLabelIsFormatted | src/pages/Counties/index.tsx:13 | the page's default label is the menu's label for BARREIRAS, 2903201 |
| MapCounty.DefaultLabelParses | src/components/MapCounty/index.tsx:173 | that label parses back to 2903201 even without a radix |
| MapCounty.SelectionReachesEverySource | src/components/MapCounty/index.tsx:171-175 | choosing a label of a safe name puts its code into every source and keeps the year |
| MapCounty.CentreFollowsTheLabel | src/components/MapCounty/index.tsx:185-187 | the chosen label's code selects the filtered list of the records carrying that code, in order; exactly one such record gives exactly its centroid |
| MapCounty.LinkFollowsSelection | src/components/MapCounty/index.tsx:212 | the view hands the menu its own selection, so the code in the cities download file name is the chosen label's code |
| MapWatershed.Stack | src/components/MapWatershed/index.tsx:42-77 | six layers with distinct names: the unnamed base map, soc, bgb, agb, highways, hidrography; exactly soc, bgb, agb carry the biomass class and only agb of them is visible; the static layers hidden |
| MapWatershed.AlwaysOneBiomassLayerShows | src/components/MapWatershed/index.tsx:42-77 | whatever the user does in the menu, exactly one biomass layer shows, the one whose switch is on |
| MapWatershed.StaticSwitchesReachTheirLayers | src/components/Menu/index.tsx:418-435 | after any actions the menu's highway and hydrography switches show or hide this map's highways and hidrography layers and no other layer |
| MapWatershed.BiomassSources | src/components/MapWatershed/index.tsx:107-141 | the three biomass sources carry the view's year and watershed |
| MapWatershed.StaticSources | src/components/MapWatershed/index.tsx:85-105 | the highway and hydrography sources carry the watershed and no year |
| MapWatershed.HandleYear | src/components/MapWatershed/index.tsx:163-168 | only the year changes |
| MapWatershed.HandleWatershed | src/components/MapWatershed/index.tsx:170-172 | only the watershed changes |
| MapWatershed.WatershedReachesEverySource | src/components/MapWatershed/index.tsx:85-141 | a chosen watershed reaches every source and the year is kept |
| MapWatershed.MenuChoicesMatchRecordsAndFolders | src/components/MapWatershed/index.tsx:183 | Grande, Corrente and Carinhanha look up GRANDE, CORRENTE, CARINHANHA and download from grande, corrente, carinhanha |
| MapWatershed.CentreFollowsTheChoice | src/components/MapWatershed/index.tsx:181-184 | a menu choice selects the filtered list of the records of that name in capitals, in order; exactly one such record gives exactly its centroid |
| MapWatershed.LinkFollowsWatershed | src/components/Menu/index.tsx:267-270 | the download directory is the chosen watershed in lower case |
| MapRegion.StackAsWritten | src/components/MapRegion/index.tsx:32-61 | eight layers with distinct names, none outside the default class; agb and watersheds visible, the rest of the overlays hidden |
| MapRegion.AsWrittenBiomassLayersNeverMove | src/components/MapRegion/index.tsx:32-34 | no sequence of menu actions ever shows BGB or SOC or hides AGB on this map |
| MapRegion.AsWrittenBgbClickDesynchronises | src/components/MapRegion/index.tsx:32-34 | one click on the BGB switch turns the BGB switch on while the map keeps showing AGB |
| MapRegion.AsWrittenCursorNeverPoints | src/components/Popup/index.tsx:65-68 | on this map the hover cursor is never "pointer" |
| MapRegion.Stack | src/components/MapRegion/index.tsx:32-61 | corrected stack: the same layers with the biomass class on soc, bgb and agb |
| MapRegion.AlwaysOneBiomassLayerShows | src/components/MapRegion/index.tsx:32-61 | with the corrected stack exactly the switched-on biomass layer shows, after any sequence of actions |
| MapRegion.CursorPointsAtBiomass | src/components/Popup/index.tsx:65-68 | with the corrected stack hovering AGB gives the pointer cursor |
| MapRegion.BiomassSources | src/components/MapRegion/index.tsx:105-133 | the three biomass sources carry the view's year and nothing else |
| MapRegion.StaticSources | src/components/MapRegion/index.tsx:69-103 | the watershed, county, highway and hydrography sources carry no view parameter |
| MapRegion.HandleYear | src/components/MapRegion/index.tsx:163-168 | the year changes |
| MapRegion.YearReachesBiomassSources | src/components/MapRegion/index.tsx:105-133 | a chosen year reaches all three biomass sources |

## Left out

- Network calls (the geometry service, the feature-info `fetch`, WMS tile loading): responses are events carrying opaque strings, and the geometry answer is a list of records passed in. A failed request produces no event.
- OpenLayers rendering, overlay placement and auto-pan, and the map's view (centre, zoom, animation). The overlay list records only where each click added one.
- `createStringXY(5)` formatting of the click coordinate: floating point; the formatted text is carried as given.
- `JSON.parse` of the centroid list and the centring it drives: the model stops at the list of centroid strings the filter keeps; `Lookup.OneCodeMatch` and `Lookup.OneNameMatch` single out the one-entry list, whose comma-joined text is exactly one centroid.
- Strings.ReplaceFirst: inserts the replacement literally; JavaScript's `replace` would expand `$&`, `$$`, `` $` `` and `$'` in it. The menu only passes "BGB" and "SOC", which hold no '$'.
- CodeNames.Format: takes the code as a natural number, so `FormatThenParse` and `Labels` cover the non-negative integer codes the geometry service returns; the service's JavaScript numbers could in principle be negative or fractional, which is not modelled.
- Charts, modals, terms-of-use and metadata dialogs, the tools menu, i18n and styling.
- `handleCategory` and routing, and the category labels: the pages pass a translated label as the menu's category; translation tables are not part of this model, so the category is an input and only the four keys "regional", "gcc", "drainage" and "counties" build a link.
- The drop-down's default value and the `table_name` choice of the label request.
- `StaticLayerSwitcher` is not part of this model: a static-switch action carries the new visibility as a free boolean.
- The popup's display before the first click is left to a stylesheet that is not part of this model (`Popup.FromStylesheet`).
- Strings.ToLower / Strings.ToUpper: map ASCII letters only; JavaScript maps all of Unicode. Every name the views feed them is ASCII.
- Strings.IsJsSpace: lists the common white-space characters `parseInt` skips, not every Unicode space separator.
- Strings.JsNumber: integers and NaN only; codes beyond 2^53 lose precision in JavaScript and are exact here.
- Menu.UrlDir: a NaN or negative code is printed by the JavaScript rules (`NaN`, `-n`), but fractional numbers never arise and are not modelled.
- Popup.Initial: the three values start undefined; the source's React state does the same.
- Popup.Cursor: the hover listener accumulates across renders like the click listener, but every copy computes the same cursor from the same map, so the model keeps one.

## Findings

| source | as written | input that shows it | evidently intended | confidence | as-written member | corrected member |
|---|---|---|---|---|---|---|
| src/components/MapRegion/index.tsx:32-34 | the region view creates AGB, BGB and SOC without the biomass class, so the menu's class filter skips them: the switches flip their flags but the map keeps showing AGB, and the hover cursor never becomes a pointer | a click on the BGB switch of the region map | the same class as the other three views, so switching is exclusive and the cursor reacts | high (not executed) | MapRegion.AsWrittenBgbClickDesynchronises | MapRegion.AlwaysOneBiomassLayerShows |
| src/components/Popup/index.tsx:54-108 | the effect registers its click listener with no cleanup and re-runs whenever `source` changes, and every render of a view passes a fresh array of freshly built sources; so each render leaves one more listener behind, holding that render's year | open a view at 2000, switch the year to 2010, click once: six requests, three of them to the 2000 sources, and two overlays; a 2000 answer that lands last fills its row | one listener asking the current sources, the previous one removed in a cleanup | high (not executed) | Popup.StaleYearFillsTheRow | Popup.CleanupAsksOnlyTheCurrentYear |
| src/components/MapDrainage/index.tsx:229 | the drainage view passes the page's default drainage area to the menu instead of its state, so the download links keep naming 46543000 after another area is chosen | choosing the label "X - 5" | pass the view's selection, as the county view does | medium (not executed) | MapDrainage.AsWrittenLinkIgnoresX5 | MapDrainage.LinkFollowsSelection |
