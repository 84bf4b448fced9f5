/**
 * The click popup: three value rows filled by independent feature-info
 * responses, a coordinate row, and the element's display style; plus the
 * hover cursor rule that shares the map's pointer events.
 */
module Popup {
  import opened Wrappers
  import opened Strings
  import opened Layers

  /** A map coordinate; the model only carries it. */
  datatype Coordinate = Coordinate(x: real, y: real)

  /** The popup element's inline `display` style; before the first click it is left to the stylesheet. */
  datatype Display = FromStylesheet | Unset | NoneStyle

  /**
   * The popup's state: the three values (undefined until a response lands),
   * the formatted click coordinate, the display style, and the overlays added
   * to the map, one per click.
   */
  datatype Popup = Popup(
    agb: Option<string>,
    bgb: Option<string>,
    soc: Option<string>,
    coords: Option<string>,
    display: Display,
    overlays: seq<Coordinate>)

  const Initial: Popup := Popup(None, None, None, None, FromStylesheet, [])

  /**
   * What reaches the popup: a click (its coordinate and the coordinate as
   * the 5-decimal formatter prints it), a response body filed under a tag,
   * or the close button. A request that fails produces no event.
   */
  datatype Event =
    | Click(at: Coordinate, text: string)
    | Response(tag: string, value: string)
    | Close

  /** The three value rows. */
  datatype Field = AgbField | BgbField | SocField

  /** `getData`'s routing: "AGB" and "BGB" have their own rows, every other tag lands in SOC. */
  function FieldOf(tag: string): (f: Field)
    ensures f == AgbField <==> tag == "AGB"
    ensures f == BgbField <==> tag == "BGB"
  {
    if tag == "AGB" then AgbField else if tag == "BGB" then BgbField else SocField
  }

  function Value(p: Popup, f: Field): (r: Option<string>) {
    match f
    case AgbField => p.agb
    case BgbField => p.bgb
    case SocField => p.soc
  }

  /** `p` with the row `f` set to `v`. */
  function Write(p: Popup, f: Field, v: string): (r: Popup)
    ensures Value(r, f) == Some(v)
    ensures forall g :: g != f ==> Value(r, g) == Value(p, g)
    ensures r.coords == p.coords && r.display == p.display && r.overlays == p.overlays
  {
    match f
    case AgbField => p.(agb := Some(v))
    case BgbField => p.(bgb := Some(v))
    case SocField => p.(soc := Some(v))
  }

  /** One event applied to the popup. */
  function Apply(p: Popup, e: Event): (r: Popup)
    ensures e.Click? ==> r.coords == Some(e.text) && r.display == Unset && r.overlays == p.overlays + [e.at]
    ensures e.Response? ==> Value(r, FieldOf(e.tag)) == Some(e.value)
    ensures e.Close? ==> r.display == NoneStyle
    ensures !e.Response? ==> forall f :: Value(r, f) == Value(p, f)
    ensures e.Response? ==> forall g :: g != FieldOf(e.tag) ==> Value(r, g) == Value(p, g)
    ensures !e.Click? ==> r.coords == p.coords && r.overlays == p.overlays
    ensures e.Response? ==> r.display == p.display
  {
    match e
    case Click(at, text) => p.(coords := Some(text), display := Unset, overlays := p.overlays + [at])
    case Response(tag, value) => Write(p, FieldOf(tag), value)
    case Close => p.(display := NoneStyle)
  }

  /** A trace of events applied in order. */
  function Run(p: Popup, events: seq<Event>): (r: Popup)
    decreases |events|
  {
    if |events| == 0 then p else Apply(Run(p, events[..|events| - 1]), events[|events| - 1])
  }

  /** The event writes the row `f`. */
  predicate Writes(e: Event, f: Field) {
    e.Response? && FieldOf(e.tag) == f
  }

  /** A response writes exactly the row its tag selects and nothing else. */
  lemma ResponseWritesOneRow(p: Popup, tag: string, value: string)
    ensures var r := Apply(p, Response(tag, value));
      && Value(r, FieldOf(tag)) == Some(value)
      && (forall g :: g != FieldOf(tag) ==> Value(r, g) == Value(p, g))
      && r.coords == p.coords && r.display == p.display && r.overlays == p.overlays
  {
  }

  /**
   * A click shows the popup at the new coordinate and adds an overlay there,
   * but leaves all three values as they were: nothing is cleared.
   */
  lemma ClickKeepsValues(p: Popup, at: Coordinate, text: string)
    ensures var r := Apply(p, Click(at, text));
      && r.display == Unset && r.coords == Some(text)
      && r.overlays == p.overlays + [at]
      && forall f :: Value(r, f) == Value(p, f)
  {
  }

  /** Closing hides the popup and changes nothing else. */
  lemma CloseOnlyHides(p: Popup)
    ensures Apply(p, Close) == p.(display := NoneStyle)
    ensures forall f :: Value(Apply(p, Close), f) == Value(p, f)
  {
  }

  /** One event either writes the row `f` with its value or leaves it alone. */
  lemma ApplyToRow(p: Popup, e: Event, f: Field)
    ensures Writes(e, f) ==> Value(Apply(p, e), f) == Some(e.value)
    ensures !Writes(e, f) ==> Value(Apply(p, e), f) == Value(p, f)
  {
  }

  /** The trace with one more event is that event applied to the shorter trace's result. */
  lemma RunSnoc(p: Popup, events: seq<Event>, e: Event)
    ensures Run(p, events + [e]) == Apply(Run(p, events), e)
  {
    assert (events + [e])[..|events|] == events;
  }

  /** `events[j]` is the last event that writes the row `f`. */
  predicate IsLastWrite(events: seq<Event>, f: Field, j: int) {
    0 <= j < |events| && Writes(events[j], f) && forall k :: j < k < |events| ==> !Writes(events[k], f)
  }

  /**
   * Last writer wins: each row holds the value of the last response filed
   * under it, whatever clicks came between, and is unchanged when no
   * response for it arrived.
   */
  lemma {:induction false} LastWriterWins(p: Popup, events: seq<Event>, f: Field)
    ensures (forall j :: 0 <= j < |events| ==> !Writes(events[j], f)) ==> Value(Run(p, events), f) == Value(p, f)
    ensures forall j :: IsLastWrite(events, f, j) ==> Value(Run(p, events), f) == Some(events[j].value)
    decreases |events|
  {
    if |events| > 0 {
      var n := |events| - 1;
      var front := events[..n];
      assert events == front + [events[n]];
      LastWriterWins(p, front, f);
      RunSnoc(p, front, events[n]);
      ApplyToRow(Run(p, front), events[n], f);
      forall j | IsLastWrite(events, f, j)
        ensures Value(Run(p, events), f) == Some(events[j].value)
      {
        if j < n {
          assert front[j] == events[j];
          assert forall k :: j < k < n ==> front[k] == events[k];
        }
      }
      if forall j :: 0 <= j < |events| ==> !Writes(events[j], f) {
        assert forall j :: 0 <= j < n ==> front[j] == events[j];
      }
    }
  }

  predicate IsClick(e: Event) { e.Click? }

  /** `events[j]` is the last click. */
  predicate IsLastClick(events: seq<Event>, j: int) {
    0 <= j < |events| && IsClick(events[j]) && forall k :: j < k < |events| ==> !IsClick(events[k])
  }

  /** `events[j]` is the last click or close. */
  predicate IsLastClickOrClose(events: seq<Event>, j: int) {
    0 <= j < |events| && !events[j].Response? && forall k :: j < k < |events| ==> events[k].Response?
  }

  /**
   * The coordinate row holds the text of the last click, and stays empty
   * (so the click-out hint shows) for as long as no click has happened.
   */
  lemma {:induction false} CoordsFollowLastClick(events: seq<Event>)
    ensures Run(Initial, events).coords.None? <==> forall j :: 0 <= j < |events| ==> !IsClick(events[j])
    ensures forall j :: IsLastClick(events, j) ==> Run(Initial, events).coords == Some(events[j].text)
    decreases |events|
  {
    if |events| > 0 {
      var n := |events| - 1;
      var front := events[..n];
      assert events == front + [events[n]];
      CoordsFollowLastClick(front);
      RunSnoc(Initial, front, events[n]);
      assert forall j :: 0 <= j < n ==> front[j] == events[j];
      forall j | IsLastClick(events, j)
        ensures Run(Initial, events).coords == Some(events[j].text)
      {
        if j < n {
          assert forall k :: j < k < n ==> front[k] == events[k];
        }
      }
    }
  }

  /**
   * The popup is shown exactly when the last click-or-close event was a
   * click; before either, the stylesheet decides.
   */
  lemma {:induction false} LastClickOrCloseDecidesDisplay(p: Popup, events: seq<Event>)
    ensures (forall j :: 0 <= j < |events| ==> events[j].Response?) ==> Run(p, events).display == p.display
    ensures forall j :: IsLastClickOrClose(events, j) ==>
      Run(p, events).display == (if events[j].Click? then Unset else NoneStyle)
    decreases |events|
  {
    if |events| > 0 {
      var n := |events| - 1;
      var front := events[..n];
      assert events == front + [events[n]];
      LastClickOrCloseDecidesDisplay(p, front);
      RunSnoc(p, front, events[n]);
      assert forall j :: 0 <= j < n ==> front[j] == events[j];
      forall j | IsLastClickOrClose(events, j)
        ensures Run(p, events).display == (if events[j].Click? then Unset else NoneStyle)
      {
        if j < n {
          assert forall k :: j < k < n ==> front[k] == events[k];
        }
      }
    }
  }

  // ---------------------------------------------------------------------------
  // Requests issued by a click

  /** One feature-info request: the source it asks (undefined past the end of the list) and its tag. */
  datatype Request<S> = Request(source: Option<S>, tag: string)

  const Tags: seq<string> := ["AGB", "BGB", "SOC"]

  function SourceAt<S>(sources: seq<S>, i: nat): (r: Option<S>) {
    if i < |sources| then Some(sources[i]) else None
  }

  /** `getData(urls[0], 'AGB')`, `getData(urls[1], 'BGB')`, `getData(urls[2], 'SOC')`. */
  function ClickRequests<S>(sources: seq<S>): (r: seq<Request<S>>)
    ensures |r| == 3
    ensures forall i :: 0 <= i < 3 ==> r[i].tag == Tags[i] && r[i].source == SourceAt(sources, i)
  {
    seq(3, i requires 0 <= i < 3 => Request(SourceAt(sources, i), Tags[i]))
  }

  /** The answer to the i-th request of a click fills the i-th row. */
  lemma RequestsFillTheirOwnRows<S>(sources: seq<S>)
    ensures FieldOf(ClickRequests(sources)[0].tag) == AgbField
    ensures FieldOf(ClickRequests(sources)[1].tag) == BgbField
    ensures FieldOf(ClickRequests(sources)[2].tag) == SocField
  {
  }

  /**
   * Given a view's product sources, each row is answered by the source whose
   * `LAYERS` parameter is the row's tag in lower case.
   */
  lemma RowsComeFromTheirLayers(base: string, view: string, year: Option<int>, code: Option<JsNumber>, ws: Option<string>)
    ensures var rs := ClickRequests(ProductSources(base, view, year, code, ws));
      forall i :: 0 <= i < 3 ==> rs[i].source.Some? && rs[i].source.value.layerName == ToLower(rs[i].tag)
  {
    assert ToLower("AGB") == "agb" && ToLower("BGB") == "bgb" && ToLower("SOC") == "soc";
  }

  // ---------------------------------------------------------------------------
  // Click listeners across renders

  /**
   * The effect that registers the click listener depends on the `source`
   * prop, which every render of a view passes as a fresh array, and it
   * returns no cleanup. So each render adds one more listener holding that
   * render's sources, and none is ever removed.
   */
  function Register<S>(listeners: seq<seq<S>>, sources: seq<S>): (r: seq<seq<S>>)
    ensures |r| == |listeners| + 1 && r[|listeners|] == sources
    ensures forall i :: 0 <= i < |listeners| ==> r[i] == listeners[i]
  {
    listeners + [sources]
  }

  /** The listeners after a sequence of renders, each passing its own sources. */
  function Listeners<S>(renders: seq<seq<S>>): (r: seq<seq<S>>)
    decreases |renders|
  {
    if |renders| == 0 then [] else Register(Listeners(renders[..|renders| - 1]), renders[|renders| - 1])
  }

  /** Every render leaves a listener behind, oldest first, holding the sources that render passed. */
  lemma {:induction false} ListenersAccumulate<S>(renders: seq<seq<S>>)
    ensures Listeners(renders) == renders
    decreases |renders|
  {
    if |renders| > 0 {
      var n := |renders| - 1;
      ListenersAccumulate(renders[..n]);
      assert renders[..n] + [renders[n]] == renders;
    }
  }

  /**
   * With a cleanup that removes the previous listener (`map.un`), registering
   * replaces the listener instead of adding one.
   */
  function RegisterWithCleanup<S>(listeners: seq<seq<S>>, sources: seq<S>): (r: seq<seq<S>>)
    ensures |r| == 1 && r[0] == sources
  {
    [sources]
  }

  /** The listeners after a sequence of renders when each render cleans up after the previous one. */
  function ListenersWithCleanup<S>(renders: seq<seq<S>>): (r: seq<seq<S>>)
    ensures |renders| == 0 ==> r == []
    ensures |renders| > 0 ==> r == [renders[|renders| - 1]]
    decreases |renders|
  {
    if |renders| == 0 then []
    else RegisterWithCleanup(ListenersWithCleanup(renders[..|renders| - 1]), renders[|renders| - 1])
  }

  /** One click: every listener, oldest first, issues its three requests. */
  function ClickAll<S>(listeners: seq<seq<S>>): (r: seq<Request<S>>)
    ensures |r| == 3 * |listeners|
    ensures forall j :: 0 <= j < |r| ==> r[j] == ClickRequests(listeners[j / 3])[j % 3]
    decreases |listeners|
  {
    if |listeners| == 0 then []
    else
      var n := |listeners| - 1;
      var front := ClickAll(listeners[..n]);
      var r := front + ClickRequests(listeners[n]);
      assert forall j :: 0 <= j < |front| ==> r[j] == front[j] && listeners[..n][j / 3] == listeners[j / 3];
      assert forall j :: |front| <= j < |r| ==> j / 3 == n && r[j] == ClickRequests(listeners[n])[j % 3];
      r
  }

  /** The popup events one click produces: each listener moves the popup and adds an overlay. */
  function ClickEvents(listeners: nat, at: Coordinate, text: string): (r: seq<Event>)
    ensures |r| == listeners && forall j :: 0 <= j < |r| ==> r[j] == Click(at, text)
  {
    seq(listeners, _ => Click(at, text))
  }

  /**
   * A click with `n` listeners adds `n` overlays at the clicked point, shows
   * the popup with the click's text (when there is a listener at all), and
   * clears no row.
   */
  lemma {:induction false} ClickWithListeners(p: Popup, n: nat, at: Coordinate, text: string)
    ensures var r := Run(p, ClickEvents(n, at, text));
      && |r.overlays| == |p.overlays| + n
      && r.overlays[..|p.overlays|] == p.overlays
      && (forall j :: |p.overlays| <= j < |r.overlays| ==> r.overlays[j] == at)
      && (n > 0 ==> r.display == Unset && r.coords == Some(text))
      && (n == 0 ==> r == p)
      && forall f :: Value(r, f) == Value(p, f)
    decreases n
  {
    if n > 0 {
      var es := ClickEvents(n, at, text);
      assert es == ClickEvents(n - 1, at, text) + [Click(at, text)];
      ClickWithListeners(p, n - 1, at, text);
      RunSnoc(p, ClickEvents(n - 1, at, text), Click(at, text));
    }
  }

  /** The answer `value` to the request `q` reaches the popup filed under the request's tag. */
  function Answer<S>(q: Request<S>, value: string): (e: Event)
    ensures e.Response? && e.tag == q.tag && e.value == value
  {
    Response(q.tag, value)
  }

  /**
   * As written, after the year changes from `y0` to `y1` one click asks the
   * AGB, BGB and SOC sources of both years and adds two overlays; when the
   * answer from the `y0` AGB source lands last, the AGB row shows it while
   * the view shows `y1`.
   */
  lemma StaleYearFillsTheRow(base: string, view: string, y0: int, y1: int, code: Option<JsNumber>, ws: Option<string>,
                             at: Coordinate, text: string, current: string, stale: string)
    ensures var ls := Listeners([ProductSources(base, view, Some(y0), code, ws), ProductSources(base, view, Some(y1), code, ws)]);
      var qs := ClickAll(ls);
      && |ls| == 2 && |qs| == 6
      && (forall j :: 0 <= j < 3 ==> qs[j].source.Some? && qs[j].source.value.year == Some(y0))
      && (forall j :: 3 <= j < 6 ==> qs[j].source.Some? && qs[j].source.value.year == Some(y1))
      && qs[0].tag == "AGB" && qs[3].tag == "AGB"
      && var r := Run(Initial, ClickEvents(|ls|, at, text) + [Answer(qs[3], current), Answer(qs[0], stale)]);
         r.agb == Some(stale) && |r.overlays| == 2 && r.display == Unset
  {
    var s0, s1 := ProductSources(base, view, Some(y0), code, ws), ProductSources(base, view, Some(y1), code, ws);
    ListenersAccumulate([s0, s1]);
    var qs := ClickAll([s0, s1]);
    var clicks := ClickEvents(2, at, text);
    var e1, e2 := Answer(qs[3], current), Answer(qs[0], stale);
    ClickWithListeners(Initial, 2, at, text);
    RunSnoc(Initial, clicks, e1);
    RunSnoc(Initial, clicks + [e1], e2);
    assert clicks + [e1] + [e2] == clicks + [e1, e2];
  }

  /**
   * Every click listener a sequence of renders leaves behind asks its own
   * render's AGB, BGB and SOC sources, so one click asks every year the
   * view has shown.
   */
  lemma AsWrittenAsksEveryRenderedYear(base: string, view: string, years: seq<int>, code: Option<JsNumber>, ws: Option<string>)
    ensures var qs := ClickAll(Listeners(seq(|years|, i requires 0 <= i < |years| => ProductSources(base, view, Some(years[i]), code, ws))));
      && |qs| == 3 * |years|
      && forall j :: 0 <= j < |qs| ==> qs[j].source.Some? && qs[j].source.value.year == Some(years[j / 3])
  {
    var renders := seq(|years|, i requires 0 <= i < |years| => ProductSources(base, view, Some(years[i]), code, ws));
    ListenersAccumulate(renders);
  }

  /**
   * With the cleanup, a click after any sequence of renders asks only the
   * latest render's sources, so every row is answered for the year the view
   * shows.
   */
  lemma CleanupAsksOnlyTheCurrentYear(base: string, view: string, years: seq<int>, code: Option<JsNumber>, ws: Option<string>)
    requires |years| > 0
    ensures var qs := ClickAll(ListenersWithCleanup(seq(|years|, i requires 0 <= i < |years| => ProductSources(base, view, Some(years[i]), code, ws))));
      && |qs| == 3
      && (forall j :: 0 <= j < 3 ==> qs[j].tag == Tags[j])
      && forall j :: 0 <= j < 3 ==> qs[j].source.Some? && qs[j].source.value.year == Some(years[|years| - 1])
  {
  }

  // ---------------------------------------------------------------------------
  // Rendering

  /** The text a row shows when its value is missing or empty. */
  const OutsideLayer: string := "Fora da camada"

  /** A value row: the parsed HTML of the value, or the placeholder. */
  datatype Cell = Placeholder | Html(content: string)

  /** `value ? HtmlParser(value) : 'Fora da camada'`: undefined and "" are falsy. */
  function RenderValue(v: Option<string>): (c: Cell)
    ensures c == Placeholder <==> v.None? || v.value == ""
    ensures c.Html? ==> v == Some(c.content)
  {
    match v
    case None => Placeholder
    case Some(s) => if s == "" then Placeholder else Html(s)
  }

  function CellText(c: Cell): (r: string) {
    match c
    case Placeholder => OutsideLayer
    case Html(s) => s
  }

  /** The coordinate row: the formatted coordinate, or the translated click-out hint. */
  datatype CoordsCell = ClickOutHint | CoordsText(text: string)

  function RenderCoords(coords: Option<string>): (c: CoordsCell)
    ensures c == ClickOutHint <==> coords.None? || coords.value == ""
  {
    match coords
    case None => ClickOutHint
    case Some(s) => if s == "" then ClickOutHint else CoordsText(s)
  }

  /**
   * With no query tagging, a late answer to an earlier click overwrites the
   * row even though a newer click has moved the popup.
   */
  lemma LateAnswerOverwritesNewerClick(a: Coordinate, b: Coordinate)
    ensures var r := Run(Initial, [Click(a, "A"), Click(b, "B"), Response("AGB", "late")]);
      r.coords == Some("B") && r.agb == Some("late") && r.overlays == [a, b]
  {
    var e1, e2, e3 := Click(a, "A"), Click(b, "B"), Response("AGB", "late");
    RunSnoc(Initial, [], e1);
    RunSnoc(Initial, [e1], e2);
    RunSnoc(Initial, [e1, e2], e3);
    assert [e1] + [e2] == [e1, e2];
    assert [e1, e2] + [e3] == [e1, e2, e3];
  }

  /**
   * Partial results show at once: after a click, an AGB answer, a lost BGB
   * request and an empty SOC answer, the popup is shown with the AGB value
   * and placeholders in the other two rows.
   */
  lemma PartialResultsShow(at: Coordinate)
    ensures var r := Run(Initial, [Click(at, "-45.10000, -12.30000"), Response("AGB", "12.34 GgC"), Response("SOC", "")]);
      && r.display == Unset
      && RenderValue(r.agb) == Html("12.34 GgC")
      && CellText(RenderValue(r.bgb)) == OutsideLayer
      && CellText(RenderValue(r.soc)) == OutsideLayer
      && RenderCoords(r.coords) == CoordsText("-45.10000, -12.30000")
  {
    var e1, e2, e3 := Click(at, "-45.10000, -12.30000"), Response("AGB", "12.34 GgC"), Response("SOC", "");
    RunSnoc(Initial, [], e1);
    RunSnoc(Initial, [e1], e2);
    RunSnoc(Initial, [e1, e2], e3);
    assert [e1] + [e2] == [e1, e2];
    assert [e1, e2] + [e3] == [e1, e2, e3];
    assert FieldOf("SOC") == SocField;
  }

  // ---------------------------------------------------------------------------
  // Hover cursor

  /**
   * A pointer move: whether the map is being dragged, and the indices of the
   * layers the map reports a painted pixel for under the pointer.
   */
  datatype PointerMove = PointerMove(dragging: bool, hits: set<nat>)

  /** The pointer hits a layer outside the default class. */
  predicate HitsTagged(layers: seq<Layer>, m: PointerMove) {
    exists i :: i in m.hits && i < |layers| && Tagged(layers[i])
  }

  /** The `pointermove` handler: drags leave the cursor alone, otherwise "pointer" exactly over a tagged layer. */
  function Cursor(current: string, layers: seq<Layer>, m: PointerMove): (r: string)
    ensures m.dragging ==> r == current
    ensures !m.dragging ==> (r == "pointer" <==> HitsTagged(layers, m))
    ensures !m.dragging ==> r == "pointer" || r == ""
  {
    if m.dragging then current else if HitsTagged(layers, m) then "pointer" else ""
  }
}
