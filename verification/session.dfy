/**
 * What the menu's controls do to a map over any sequence of user actions:
 * clicks on the biomass switches, moves of their opacity sliders and clicks
 * on the static-layer switches.
 */
module Session {
  import opened Wrappers
  import opened Layers
  import opened LayerSwitcher
  import opened Menu

  /** The three biomass switchers, in the order the menu renders them. */
  datatype Product = AgbProduct | BgbProduct | SocProduct

  function Index(p: Product): (r: nat) {
    match p
    case AgbProduct => 0
    case BgbProduct => 1
    case SocProduct => 2
  }

  /** The name each biomass switcher is rendered with. */
  function ProductName(p: Product): (r: string)
    ensures IsBiomassName(r)
  {
    match p
    case AgbProduct => Agb
    case BgbProduct => Bgb
    case SocProduct => Soc
  }

  /** The static-layer switchers: `hidrography` and `highways` always, `watersheds` and `counties` on the regional map. */
  datatype StaticLayer = Hidrography | Highways | Watersheds | Counties

  function StaticName(s: StaticLayer): (r: string) {
    match s
    case Hidrography => "hidrography"
    case Highways => "highways"
    case Watersheds => "watersheds"
    case Counties => "counties"
  }

  /** One user action in the menu. */
  datatype Action =
    | SwitchClick(product: Product)
    | Slide(product: Product, opacity: Tenths)
    | StaticSwitch(layer: StaticLayer, on: bool)

  /** The switcher an action on `p` reaches; its download link plays no part here. */
  function SwitcherOf(c: Controls, p: Product): (r: Switcher) {
    Switchers(c.flags, "")[Index(p)]
  }

  /**
   * One action: the switcher turns it into a handler call (or ignores a click
   * on a disabled switch) and the menu's handler applies it.
   */
  function Step(c: Controls, a: Action): (r: Controls)
    ensures a.SwitchClick? && FlagOf(c.flags, ProductName(a.product)) ==> r == c
    ensures a.SwitchClick? && !FlagOf(c.flags, ProductName(a.product)) ==>
      r == HandleLayerVisibility(c, true, ProductName(a.product))
    ensures a.Slide? ==> r == HandleLayerOpacity(c, a.opacity, ProductName(a.product))
    ensures a.StaticSwitch? ==> r == HandleStaticLayerVisibility(c, a.on, StaticName(a.layer))
  {
    match a
    case SwitchClick(p) =>
      (match Click(SwitcherOf(c, p))
       case None => c
       case Some(call) => HandleLayerVisibility(c, call.e, call.id))
    case Slide(p, o) =>
      var call := HandleOpacity(SwitcherOf(c, p), o);
      HandleLayerOpacity(c, call.opacity, call.name)
    case StaticSwitch(s, on) =>
      HandleStaticLayerVisibility(c, on, StaticName(s))
  }

  function Run(c: Controls, actions: seq<Action>): (r: Controls)
    decreases |actions|
  {
    if |actions| == 0 then c else Run(Step(c, actions[0]), actions[1..])
  }

  // ---------------------------------------------------------------------------
  // The invariant of a map whose biomass layers carry the biomass class

  /** Some tagged layer is named `n`. */
  predicate HasTagged(layers: seq<Layer>, n: string) {
    exists i :: 0 <= i < |layers| && Tagged(layers[i]) && Named(layers[i], n)
  }

  /** The tagged layers are one layer for each of the three biomass names and nothing else. */
  predicate BiomassTagged(layers: seq<Layer>) {
    && (forall i :: 0 <= i < |layers| && Tagged(layers[i]) ==> IsBiomassName(layers[i].name.GetOr("")))
    && UniqueTaggedNames(layers)
    && HasTagged(layers, Agb) && HasTagged(layers, Bgb) && HasTagged(layers, Soc)
  }

  /** Every tagged layer is visible exactly when the switch of its name is on. */
  predicate InSync(c: Controls) {
    forall i :: 0 <= i < |c.layers| && Tagged(c.layers[i]) ==>
      c.layers[i].visible == FlagOf(c.flags, c.layers[i].name.GetOr(""))
  }

  predicate Consistent(c: Controls) {
    BiomassTagged(c.layers) && InSync(c) && ExactlyOneFlag(c.flags)
  }

  /** `b` has the layers of `a`, each with the same name and class. */
  predicate SameShape(a: seq<Layer>, b: seq<Layer>) {
    |a| == |b| && forall i :: 0 <= i < |a| ==> a[i].name == b[i].name && a[i].className == b[i].className
  }

  lemma SameShapeKeepsBiomassTagged(a: seq<Layer>, b: seq<Layer>)
    requires SameShape(a, b) && BiomassTagged(a)
    ensures BiomassTagged(b)
  {
    assert forall i :: 0 <= i < |a| ==> (Tagged(a[i]) <==> Tagged(b[i]));
    forall n | IsBiomassName(n)
      ensures HasTagged(b, n)
    {
      var i :| 0 <= i < |a| && Tagged(a[i]) && Named(a[i], n);
      assert Tagged(b[i]) && Named(b[i], n);
    }
  }

  /** Every action keeps the layers' names and classes. */
  lemma StepKeepsShape(c: Controls, a: Action)
    ensures SameShape(c.layers, Step(c, a).layers)
  {
  }

  /** A click on a switch that is off switches on its layer and its flag, and nothing else. */
  lemma SwitchOnKeepsConsistent(c: Controls, n: string)
    requires Consistent(c) && IsBiomassName(n)
    ensures Consistent(HandleLayerVisibility(c, true, n))
  {
    var r := HandleLayerVisibility(c, true, n);
    SwitchOnSetsOneFlag(c.flags, n);
    SameShapeKeepsBiomassTagged(c.layers, r.layers);
    forall i | 0 <= i < |r.layers| && Tagged(r.layers[i])
      ensures r.layers[i].visible == FlagOf(r.flags, r.layers[i].name.GetOr(""))
    {
      var m := c.layers[i].name.GetOr("");
      assert Tagged(c.layers[i]) && IsBiomassName(m);
      assert Named(c.layers[i], n) <==> m == n;
    }
  }

  /** A change of anything but names, classes, flags and visibility keeps a map consistent. */
  lemma SameVisibilityKeepsConsistent(c: Controls, r: Controls)
    requires Consistent(c) && SameShape(c.layers, r.layers) && r.flags == c.flags
    requires forall i :: 0 <= i < |c.layers| ==> r.layers[i].visible == c.layers[i].visible
    ensures Consistent(r)
  {
    SameShapeKeepsBiomassTagged(c.layers, r.layers);
    assert forall i :: 0 <= i < |c.layers| ==> (Tagged(c.layers[i]) <==> Tagged(r.layers[i]));
  }

  /** A static switch never reaches a tagged layer of a consistent map. */
  lemma StaticSwitchKeepsConsistent(c: Controls, s: StaticLayer, on: bool)
    requires Consistent(c)
    ensures Consistent(HandleStaticLayerVisibility(c, on, StaticName(s)))
  {
    var r := HandleStaticLayerVisibility(c, on, StaticName(s));
    SameShapeKeepsBiomassTagged(c.layers, r.layers);
    forall i | 0 <= i < |c.layers| && Tagged(c.layers[i])
      ensures r.layers[i] == c.layers[i]
    {
      assert IsBiomassName(c.layers[i].name.GetOr(""));
      assert !Named(c.layers[i], StaticName(s));
    }
    assert forall i :: 0 <= i < |c.layers| ==> (Tagged(c.layers[i]) <==> Tagged(r.layers[i]));
  }

  /** Each action keeps a consistent map consistent. */
  lemma StepKeepsConsistent(c: Controls, a: Action)
    requires Consistent(c)
    ensures Consistent(Step(c, a))
  {
    StepKeepsShape(c, a);
    match a
    case SwitchClick(p) =>
      var sw := SwitcherOf(c, p);
      if !sw.layerIsVisible {
        SwitchOnKeepsConsistent(c, sw.name);
      }
    case Slide(p, o) =>
      SameVisibilityKeepsConsistent(c, Step(c, a));
    case StaticSwitch(s, on) =>
      StaticSwitchKeepsConsistent(c, s, on);
  }

  /** Every sequence of actions keeps a consistent map consistent. */
  lemma {:induction false} RunKeepsConsistent(c: Controls, actions: seq<Action>)
    requires Consistent(c)
    ensures Consistent(Run(c, actions))
    decreases |actions|
  {
    if |actions| > 0 {
      StepKeepsConsistent(c, actions[0]);
      RunKeepsConsistent(Step(c, actions[0]), actions[1..]);
    }
  }

  /** In a consistent map exactly one biomass layer shows, and it is the one whose switch is on. */
  lemma ConsistentShowsOneLayer(c: Controls)
    requires Consistent(c)
    ensures exists k :: 0 <= k < |c.layers| && VisibleTagged(c.layers) == {k} && FlagOf(c.flags, c.layers[k].name.GetOr(""))
  {
    var n := if c.flags.agb then Agb else if c.flags.bgb then Bgb else Soc;
    assert HasTagged(c.layers, n);
    var k :| 0 <= k < |c.layers| && Tagged(c.layers[k]) && Named(c.layers[k], n);
    forall i: nat | i in VisibleTagged(c.layers)
      ensures i == k
    {
      var m := c.layers[i].name.GetOr("");
      assert IsBiomassName(m) && FlagOf(c.flags, m);
      assert m == n;
    }
    assert k in VisibleTagged(c.layers);
  }

  /** Whatever the user does, a map that starts consistent shows exactly the biomass layer whose switch is on. */
  lemma AlwaysOneBiomassLayer(c: Controls, actions: seq<Action>)
    requires Consistent(c)
    ensures Consistent(Run(c, actions))
    ensures var r := Run(c, actions);
      exists k :: 0 <= k < |r.layers| && VisibleTagged(r.layers) == {k} && FlagOf(r.flags, r.layers[k].name.GetOr(""))
  {
    RunKeepsConsistent(c, actions);
    ConsistentShowsOneLayer(Run(c, actions));
  }

  // ---------------------------------------------------------------------------
  // A map with no tagged layer

  predicate NoneTagged(layers: seq<Layer>) {
    forall i :: 0 <= i < |layers| ==> !Tagged(layers[i])
  }

  /**
   * On a map none of whose layers is tagged, no action changes the visibility
   * of a layer named after a biomass product: the switches move their flags
   * and nothing else.
   */
  lemma {:induction false} UntaggedBiomassLayersNeverMove(c: Controls, actions: seq<Action>)
    requires NoneTagged(c.layers)
    ensures SameShape(c.layers, Run(c, actions).layers)
    ensures forall i :: 0 <= i < |c.layers| && IsBiomassName(c.layers[i].name.GetOr("")) ==>
      Run(c, actions).layers[i].visible == c.layers[i].visible
    decreases |actions|
  {
    if |actions| > 0 {
      var d := Step(c, actions[0]);
      StepKeepsShape(c, actions[0]);
      assert NoneTagged(d.layers);
      forall i | 0 <= i < |c.layers| && IsBiomassName(c.layers[i].name.GetOr(""))
        ensures d.layers[i].visible == c.layers[i].visible
      {
        match actions[0]
        case SwitchClick(p) =>
        case Slide(p, o) =>
        case StaticSwitch(s, on) =>
          assert !Named(c.layers[i], StaticName(s));
      }
      UntaggedBiomassLayersNeverMove(d, actions[1..]);
    }
  }

  // ---------------------------------------------------------------------------
  // Static switches

  /** No sequence of actions renames, reorders or reclasses a layer. */
  lemma {:induction false} RunKeepsShape(c: Controls, actions: seq<Action>)
    ensures SameShape(c.layers, Run(c, actions).layers)
    decreases |actions|
  {
    if |actions| > 0 {
      var d := Step(c, actions[0]);
      StepKeepsShape(c, actions[0]);
      RunKeepsShape(d, actions[1..]);
    }
  }

  /**
   * Whatever came before, a static switch shows or hides the one layer of the
   * map that carries its name and leaves every other layer as it was.
   */
  lemma StaticSwitchReachesItsLayer(c: Controls, actions: seq<Action>, s: StaticLayer, on: bool, k: nat)
    requires DistinctNames(c.layers)
    requires k < |c.layers| && Named(c.layers[k], StaticName(s))
    ensures var before := Run(c, actions);
      var r := Step(before, StaticSwitch(s, on));
      && |r.layers| == |c.layers|
      && r.layers[k].visible == on
      && forall i :: 0 <= i < |r.layers| && i != k ==> r.layers[i] == before.layers[i]
  {
    RunKeepsShape(c, actions);
    forall i | 0 <= i < |c.layers| && i != k
      ensures !Named(c.layers[i], StaticName(s))
    {
      if i < k {
        assert c.layers[i].name.Some? ==> c.layers[i].name != c.layers[k].name;
      } else {
        assert c.layers[k].name != c.layers[i].name;
      }
    }
  }
}
