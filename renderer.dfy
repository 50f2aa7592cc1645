/** The Renderer: the camera and its world/screen transform, the table of
    named layers (each with a z-index, a visibility flag, an alpha and an
    insertion-ordered set of sprites), and `render` as the sequence of
    layers it visits and sprites it draws. */
module Rendering {
  import opened Common
  import opened OrderedSets
  import opened Sprites

  datatype Camera = Camera(x: real, y: real, scale: real, rotation: real)

  datatype Layer = Layer(zIndex: real, visible: bool, alpha: real, entities: seq<Sprite>)

  /** A fresh layer as `addLayer` creates it. */
  function NewLayer(zIndex: real): (l: Layer)
    ensures l.visible && l.alpha == 1.0 && l.entities == [] && l.zIndex == zIndex
  {
    Layer(zIndex, true, 1.0, [])
  }

  /** `worldToScreen`: relative to the camera, scaled, then centred on a
      canvas of the given size. Rotation plays no part. */
  function WorldToScreen(c: Camera, width: real, height: real, p: Vec): Vec
  {
    Vec((p.x - c.x) * c.scale + width / 2.0, (p.y - c.y) * c.scale + height / 2.0)
  }

  /** `screenToWorld`; with a zero scale the source divides by zero and
      gets no finite point, modelled as None. */
  function ScreenToWorld(c: Camera, width: real, height: real, p: Vec): (r: Option<Vec>)
    ensures r.Some? <==> c.scale != 0.0
  {
    if c.scale == 0.0 then None
    else Some(Vec((p.x - width / 2.0) / c.scale + c.x, (p.y - height / 2.0) / c.scale + c.y))
  }

  /** The two transforms are inverse whenever the scale is not zero. */
  lemma ScreenToWorldInvertsWorldToScreen(c: Camera, width: real, height: real, p: Vec)
    requires c.scale != 0.0
    ensures ScreenToWorld(c, width, height, WorldToScreen(c, width, height, p)) == Some(p)
  {
    var q := WorldToScreen(c, width, height, p);
    assert q.x - width / 2.0 == (p.x - c.x) * c.scale;
    assert q.y - height / 2.0 == (p.y - c.y) * c.scale;
    DivMulCancel(p.x - c.x, c.scale);
    DivMulCancel(p.y - c.y, c.scale);
    var r := ScreenToWorld(c, width, height, q).value;
    assert r.x == (p.x - c.x) + c.x;
    assert r.y == (p.y - c.y) + c.y;
  }

  lemma WorldToScreenInvertsScreenToWorld(c: Camera, width: real, height: real, p: Vec)
    requires c.scale != 0.0
    ensures WorldToScreen(c, width, height, ScreenToWorld(c, width, height, p).value) == p
  {
    var q := ScreenToWorld(c, width, height, p).value;
    var u, v := (p.x - width / 2.0) / c.scale, (p.y - height / 2.0) / c.scale;
    assert q.x - c.x == u && q.y - c.y == v;
    DivThenMul(p.x - width / 2.0, c.scale);
    DivThenMul(p.y - height / 2.0, c.scale);
  }

  lemma DivThenMul(a: real, b: real)
    requires b != 0.0
    ensures a / b * b == a
  {
  }

  /** The camera's position appears at the centre of the canvas. */
  lemma CameraIsAtScreenCentre(c: Camera, width: real, height: real)
    ensures WorldToScreen(c, width, height, Vec(c.x, c.y)) == Vec(width / 2.0, height / 2.0)
  {
    MulZero(c.x - c.x, c.scale);
    MulZero(c.y - c.y, c.scale);
  }

  /** Moving the camera by (dx, dy) shows every point where the point
      moved by (-dx, -dy) was shown before. */
  lemma MovingCameraShiftsScreen(c: Camera, width: real, height: real, p: Vec, dx: real, dy: real)
    ensures WorldToScreen(c.(x := c.x + dx, y := c.y + dy), width, height, p)
         == WorldToScreen(c, width, height, Vec(p.x - dx, p.y - dy))
  {
    var d := c.(x := c.x + dx, y := c.y + dy);
    var q := Vec(p.x - dx, p.y - dy);
    assert d.scale == c.scale;
    var u, v := p.x - d.x, p.y - d.y;
    assert u == q.x - c.x && v == q.y - c.y;
    assert WorldToScreen(d, width, height, p) == Vec(u * c.scale + width / 2.0, v * c.scale + height / 2.0);
    assert WorldToScreen(c, width, height, q) == Vec(u * c.scale + width / 2.0, v * c.scale + height / 2.0);
  }

  /** The transforms ignore the camera's rotation. */
  lemma RotationIsIgnored(c: Camera, width: real, height: real, p: Vec, rotation: real)
    ensures WorldToScreen(c.(rotation := rotation), width, height, p) == WorldToScreen(c, width, height, p)
    ensures ScreenToWorld(c.(rotation := rotation), width, height, p) == ScreenToWorld(c, width, height, p)
  {
    var d := c.(rotation := rotation);
    assert d.x == c.x && d.y == c.y && d.scale == c.scale;
    var sx, sy := (p.x - c.x) * c.scale + width / 2.0, (p.y - c.y) * c.scale + height / 2.0;
    assert WorldToScreen(d, width, height, p) == Vec(sx, sy);
    assert WorldToScreen(c, width, height, p) == Vec(sx, sy);
  }

  /** The layer entries `[name, layer]` in the Map's insertion order. */
  function Entries(names: seq<string>, layers: map<string, Layer>): (r: seq<(string, Layer)>)
    requires forall i :: 0 <= i < |names| ==> names[i] in layers
    ensures |r| == |names|
    ensures forall i :: 0 <= i < |r| ==> r[i] == (names[i], layers[names[i]])
  {
    if |names| == 0 then []
    else [(names[0], layers[names[0]])] + Entries(names[1..], layers)
  }

  predicate SortedByZ(es: seq<(string, Layer)>)
  {
    forall i, j :: 0 <= i < j < |es| ==> es[i].1.zIndex <= es[j].1.zIndex
  }

  /** Inserting after every entry with a z-index not above its own, so that
      equal z-indices keep their order. */
  function InsertByZ(sorted: seq<(string, Layer)>, e: (string, Layer)): (r: seq<(string, Layer)>)
    ensures multiset(r) == multiset(sorted) + multiset{e} && |r| == |sorted| + 1
    ensures SortedByZ(sorted) ==> SortedByZ(r)
  {
    if |sorted| == 0 then [e]
    else if sorted[|sorted| - 1].1.zIndex <= e.1.zIndex then
      AppendKeepsSorted(sorted, e);
      sorted + [e]
    else
      var front := InsertByZ(sorted[..|sorted| - 1], e);
      InsertBeforeLast(sorted, e, front);
      front + [sorted[|sorted| - 1]]
  }

  lemma AppendKeepsSorted(sorted: seq<(string, Layer)>, e: (string, Layer))
    requires |sorted| > 0 && sorted[|sorted| - 1].1.zIndex <= e.1.zIndex
    ensures multiset(sorted + [e]) == multiset(sorted) + multiset{e}
    ensures SortedByZ(sorted) ==> SortedByZ(sorted + [e])
  {
    var r := sorted + [e];
    if SortedByZ(sorted) {
      forall i, j | 0 <= i < j < |r| ensures r[i].1.zIndex <= r[j].1.zIndex {
        if j < |sorted| {
          assert r[i] == sorted[i] && r[j] == sorted[j];
        } else {
          assert r[i] == sorted[i];
          assert sorted[i].1.zIndex <= sorted[|sorted| - 1].1.zIndex;
        }
      }
    }
  }

  /** The step of InsertByZ that moves the new entry in front of the last
      one. */
  lemma InsertBeforeLast(sorted: seq<(string, Layer)>, e: (string, Layer), front: seq<(string, Layer)>)
    requires |sorted| > 0 && sorted[|sorted| - 1].1.zIndex > e.1.zIndex
    requires multiset(front) == multiset(sorted[..|sorted| - 1]) + multiset{e}
    requires SortedByZ(sorted[..|sorted| - 1]) ==> SortedByZ(front)
    ensures multiset(front + [sorted[|sorted| - 1]]) == multiset(sorted) + multiset{e}
    ensures SortedByZ(sorted) ==> SortedByZ(front + [sorted[|sorted| - 1]])
  {
    var init, last := sorted[..|sorted| - 1], sorted[|sorted| - 1];
    assert sorted == init + [last];
    var r := front + [last];
    if SortedByZ(sorted) {
      SortedInit(sorted);
      forall k | 0 <= k < |front| ensures front[k].1.zIndex <= last.1.zIndex {
        assert front[k] in multiset(front);
        if front[k] != e {
          assert front[k] in multiset(init);
          var m :| 0 <= m < |init| && init[m] == front[k];
          assert sorted[m] == init[m];
        }
      }
      forall i, j | 0 <= i < j < |r| ensures r[i].1.zIndex <= r[j].1.zIndex {
        if j < |front| {
          assert r[i] == front[i] && r[j] == front[j];
        } else {
          assert r[i] == front[i];
        }
      }
    }
  }

  /** The stable sort of `Array.prototype.sort` with the comparator
      `a[1].zIndex - b[1].zIndex`. */
  function SortByZ(es: seq<(string, Layer)>): (r: seq<(string, Layer)>)
    ensures multiset(r) == multiset(es) && |r| == |es|
    ensures SortedByZ(r)
  {
    if |es| == 0 then []
    else
      var init := es[..|es| - 1];
      assert es == init + [es[|es| - 1]];
      var front := SortByZ(init);
      assert SortedByZ(front);
      InsertByZ(front, es[|es| - 1])
  }

  lemma InsertAfterLast(sorted: seq<(string, Layer)>, e: (string, Layer))
    requires |sorted| == 0 || sorted[|sorted| - 1].1.zIndex <= e.1.zIndex
    ensures InsertByZ(sorted, e) == sorted + [e]
  {
  }

  lemma SortedInit(es: seq<(string, Layer)>)
    requires SortedByZ(es) && |es| > 0
    ensures SortedByZ(es[..|es| - 1])
  {
    var init := es[..|es| - 1];
    forall i, j | 0 <= i < j < |init| ensures init[i].1.zIndex <= init[j].1.zIndex {
      assert init[i] == es[i] && init[j] == es[j];
    }
  }

  /** Already ordered entries are left as they are. */
  lemma {:induction false} SortKeepsSorted(es: seq<(string, Layer)>)
    requires SortedByZ(es)
    ensures SortByZ(es) == es
  {
    if |es| > 0 {
      var init := es[..|es| - 1];
      var e := es[|es| - 1];
      SortedInit(es);
      SortKeepsSorted(init);
      assert SortByZ(es) == InsertByZ(init, e);
      if |init| > 0 {
        assert init[|init| - 1] == es[|es| - 2];
      }
      InsertAfterLast(init, e);
      assert es == init + [e];
    }
  }

  /** All the sprites of the given layers. */
  ghost function Members(ls: seq<(string, Layer)>): set<Sprite>
  {
    set i, k | 0 <= i < |ls| && 0 <= k < |ls[i].1.entities| :: ls[i].1.entities[k]
  }

  /** The sprites of one layer that are drawn: visible ones (checked by
      `render`) with a current costume (checked by `renderEntity`). */
  function DrawnOf(es: seq<Sprite>): (r: seq<Sprite>)
    reads es
    ensures forall k :: 0 <= k < |r| ==> r[k] in es && r[k].visible && r[k].currentCostume.Some?
  {
    if |es| == 0 then []
    else
      var e := es[|es| - 1];
      DrawnOf(es[..|es| - 1]) + (if e.visible && e.currentCostume.Some? then [e] else [])
  }

  /** The sprites `render` draws, layer entry by layer entry; a hidden layer
      draws nothing. */
  function Drawn(ls: seq<(string, Layer)>): (r: seq<Sprite>)
    reads Members(ls)
  {
    if |ls| == 0 then []
    else
      var l := ls[|ls| - 1].1;
      Drawn(ls[..|ls| - 1]) + (if l.visible then DrawnOf(l.entities) else [])
  }

  /** The layers `render` opens, in order: the visible ones. */
  function Visited(ls: seq<(string, Layer)>): (r: seq<string>)
  {
    if |ls| == 0 then []
    else Visited(ls[..|ls| - 1]) + (if ls[|ls| - 1].1.visible then [ls[|ls| - 1].0] else [])
  }

  /** Every drawn sprite is visible, has a costume, and belongs to a visible
      layer. */
  lemma {:induction false} DrawnAreVisible(ls: seq<(string, Layer)>)
    ensures forall k :: 0 <= k < |Drawn(ls)| ==>
      Drawn(ls)[k].visible && Drawn(ls)[k].currentCostume.Some?
      && exists i :: 0 <= i < |ls| && ls[i].1.visible && Drawn(ls)[k] in ls[i].1.entities
  {
    if |ls| > 0 {
      var init := ls[..|ls| - 1];
      var l := ls[|ls| - 1].1;
      DrawnAreVisible(init);
      var d := Drawn(ls);
      forall k | 0 <= k < |d|
        ensures d[k].visible && d[k].currentCostume.Some?
        ensures exists i :: 0 <= i < |ls| && ls[i].1.visible && d[k] in ls[i].1.entities
      {
        if k < |Drawn(init)| {
          assert d[k] == Drawn(init)[k];
          var i :| 0 <= i < |init| && init[i].1.visible && d[k] in init[i].1.entities;
          assert ls[i] == init[i];
        } else {
          assert d[k] == DrawnOf(l.entities)[k - |Drawn(init)|];
          assert ls[|ls| - 1].1 == l;
        }
      }
    }
  }

  /** Each visited name is the name of a visible entry. */
  lemma {:induction false} VisitedAreVisibleEntries(ls: seq<(string, Layer)>)
    ensures forall k :: 0 <= k < |Visited(ls)| ==> VisitedFrom(ls, k)
  {
    if |ls| > 0 {
      var init := ls[..|ls| - 1];
      VisitedAreVisibleEntries(init);
      forall k | 0 <= k < |Visited(ls)| ensures VisitedFrom(ls, k) {
        if k < |Visited(init)| {
          assert VisitedFrom(init, k);
          var i :| 0 <= i < |init| && init[i].1.visible && init[i].0 == Visited(init)[k];
          assert ls[i] == init[i] && Visited(ls)[k] == Visited(init)[k];
        } else {
          var i := |ls| - 1;
          assert ls[i].1.visible && ls[i].0 == Visited(ls)[k];
        }
      }
    }
  }

  /** Entry k of the visited names is the name of a visible entry. */
  ghost predicate VisitedFrom(ls: seq<(string, Layer)>, k: nat)
    requires k < |Visited(ls)|
  {
    exists i :: 0 <= i < |ls| && ls[i].1.visible && ls[i].0 == Visited(ls)[k]
  }

  /** The layers are visited in non-decreasing z-index. */
  lemma {:induction false} VisitedInZOrder(ls: seq<(string, Layer)>, z: map<string, real>)
    requires forall i :: 0 <= i < |ls| ==> ls[i].0 in z && z[ls[i].0] == ls[i].1.zIndex
    requires SortedByZ(ls)
    ensures forall k :: 0 <= k < |Visited(ls)| ==> Visited(ls)[k] in z
    ensures forall j, k :: 0 <= j < k < |Visited(ls)| ==> z[Visited(ls)[j]] <= z[Visited(ls)[k]]
  {
    VisitedAreVisibleEntries(ls);
    if |ls| > 0 {
      var init := ls[..|ls| - 1];
      var last := ls[|ls| - 1];
      SortedInit(ls);
      VisitedInZOrder(init, z);
      VisitedAreVisibleEntries(init);
      var v := Visited(ls);
      var w := Visited(init);
      forall j, k | 0 <= j < k < |v| ensures z[v[j]] <= z[v[k]] {
        if k < |w| {
          assert v[j] == w[j] && v[k] == w[k];
        } else {
          assert v[k] == last.0;
          assert v[j] == w[j];
          assert VisitedFrom(init, j);
          var i :| 0 <= i < |init| && init[i].1.visible && init[i].0 == w[j];
          assert init[i] == ls[i];
        }
      }
    }
  }

  class Renderer {
    var width: real
    var height: real
    var camera: Camera
    /** The `layers` Map: `layerNames` is its key order. */
    var layerNames: seq<string>
    var layers: map<string, Layer>
    var currentLayer: string

    ghost predicate Valid()
      reads this
    {
      NoDup(layerNames) && (forall n :: n in layers <==> n in layerNames)
    }

    /** The constructor on a canvas of the given size: the default camera
      and one layer 'default' at z-index 0. */
    constructor(canvasWidth: real, canvasHeight: real)
      ensures Valid()
      ensures width == canvasWidth && height == canvasHeight
      ensures camera == Camera(0.0, 0.0, 1.0, 0.0) && currentLayer == "default"
      ensures layerNames == ["default"] && layers == map["default" := NewLayer(0.0)]
    {
      width, height := canvasWidth, canvasHeight;
      camera := Camera(0.0, 0.0, 1.0, 0.0);
      currentLayer := "default";
      layerNames := ["default"];
      layers := map["default" := NewLayer(0.0)];
    }

    /** `addLayer(name, zIndex)`: a layer of that name is replaced by an
      empty one, keeping its place in the order. */
    method AddLayer(name: string, zIndex: real)
      requires Valid()
      modifies this
      ensures unchanged(this`width, this`height, this`camera, this`currentLayer)
      ensures Valid()
      ensures layers == old(layers)[name := NewLayer(zIndex)]
      ensures layerNames == Add(old(layerNames), name)
    {
      AddKeepsNoDup(layerNames, name);
      layers := layers[name := NewLayer(zIndex)];
      layerNames := Add(layerNames, name);
    }

    /** `setLayer(name)`: an unknown name leaves the current layer. */
    method SetLayer(name: string)
      modifies this
      ensures unchanged(this`width, this`height, this`camera, this`layerNames, this`layers)
      ensures currentLayer == if name in layers then name else old(currentLayer)
    {
      if name in layers {
        currentLayer := name;
      }
    }

    /** `addToLayer(entity, layerName)`: an unknown layer is skipped. */
    method AddToLayer(entity: Sprite, layerName: string)
      requires Valid()
      modifies this
      ensures unchanged(this`width, this`height, this`camera, this`layerNames, this`currentLayer)
      ensures Valid()
      ensures layerName in old(layers) ==>
        layers == old(layers)[layerName := old(layers)[layerName].(entities := Add(old(layers)[layerName].entities, entity))]
      ensures layerName !in old(layers) ==> layers == old(layers)
    {
      if layerName in layers {
        var l := layers[layerName];
        layers := layers[layerName := l.(entities := Add(l.entities, entity))];
      }
    }

    /** `removeFromLayer(entity, layerName)`: an unknown layer is
      skipped. */
    method RemoveFromLayer(entity: Sprite, layerName: string)
      requires Valid()
      modifies this
      ensures unchanged(this`width, this`height, this`camera, this`layerNames, this`currentLayer)
      ensures Valid()
      ensures layerName in old(layers) ==>
        layers == old(layers)[layerName := old(layers)[layerName].(entities := Delete(old(layers)[layerName].entities, entity))]
      ensures layerName !in old(layers) ==> layers == old(layers)
    {
      if layerName in layers {
        var l := layers[layerName];
        layers := layers[layerName := l.(entities := Delete(l.entities, entity))];
      }
    }

    /** `setCamera(x, y, scale, rotation)` (the source's defaults are
      scale 1 and rotation 0). */
    method SetCamera(x: real, y: real, scale: real, rotation: real)
      modifies this
      ensures unchanged(this`width, this`height, this`layerNames, this`layers, this`currentLayer)
      ensures camera == Camera(x, y, scale, rotation)
    {
      camera := Camera(x, y, scale, rotation);
    }

    method MoveCamera(dx: real, dy: real)
      modifies this
      ensures unchanged(this`width, this`height, this`layerNames, this`layers, this`currentLayer)
      ensures camera == old(camera).(x := old(camera).x + dx, y := old(camera).y + dy)
    {
      camera := camera.(x := camera.x + dx, y := camera.y + dy);
    }

    method ZoomCamera(factor: real)
      modifies this
      ensures unchanged(this`width, this`height, this`layerNames, this`layers, this`currentLayer)
      ensures camera == old(camera).(scale := old(camera).scale * factor)
    {
      camera := camera.(scale := camera.scale * factor);
    }

    method RotateCamera(angle: real)
      modifies this
      ensures unchanged(this`width, this`height, this`layerNames, this`layers, this`currentLayer)
      ensures camera == old(camera).(rotation := old(camera).rotation + angle)
    {
      camera := camera.(rotation := camera.rotation + angle);
    }

    /** The layer entries in the order `render` visits them. */
    function SortedLayers(): (r: seq<(string, Layer)>)
      requires Valid()
      reads this
      ensures SortedByZ(r) && multiset(r) == multiset(Entries(layerNames, layers))
    {
      SortByZ(Entries(layerNames, layers))
    }

    /** `render`: the layers opened and the sprites drawn, in order. The
      `sprites` argument of the source is unused and left out. */
    method Render() returns (visited: seq<string>, drawn: seq<Sprite>)
      requires Valid()
      ensures visited == Visited(SortedLayers())
      ensures drawn == Drawn(SortedLayers())
    {
      var sorted := SortedLayers();
      visited, drawn := [], [];
      var i := 0;
      while i < |sorted|
        invariant 0 <= i <= |sorted|
        invariant visited == Visited(sorted[..i])
        invariant drawn == Drawn(sorted[..i])
      {
        var layer := sorted[i].1;
        if layer.visible {
          visited := visited + [sorted[i].0];
          drawn := DrawLayer(sorted[..i], layer.entities, drawn);
        }
        RenderStep(sorted, i);
        i := i + 1;
      }
      assert sorted[..i] == sorted;
    }
  }

  /** The inner loop of `render`: `renderEntity` for each visible entity of
      a layer, which draws those that have a costume. */
  method DrawLayer(ghost before: seq<(string, Layer)>, entities: seq<Sprite>, drawn0: seq<Sprite>)
    returns (drawn: seq<Sprite>)
    requires drawn0 == Drawn(before)
    ensures drawn == Drawn(before) + DrawnOf(entities)
  {
    drawn := drawn0;
    var j := 0;
    while j < |entities|
      invariant 0 <= j <= |entities|
      invariant drawn == Drawn(before) + DrawnOf(entities[..j])
    {
      DrawnOfStep(entities, j);
      var e := entities[j];
      if e.visible && e.currentCostume.Some? {
        drawn := drawn + [e];
      }
      j := j + 1;
    }
    assert entities[..j] == entities;
  }

  /** One more layer entry and one more sprite of a layer, for the loops of
      `render`. */
  lemma RenderStep(ls: seq<(string, Layer)>, i: int)
    requires 0 <= i < |ls|
    ensures ls[i].1.visible ==> Visited(ls[..i + 1]) == Visited(ls[..i]) + [ls[i].0]
    ensures ls[i].1.visible ==> Drawn(ls[..i + 1]) == Drawn(ls[..i]) + DrawnOf(ls[i].1.entities)
    ensures !ls[i].1.visible ==> Visited(ls[..i + 1]) == Visited(ls[..i]) && Drawn(ls[..i + 1]) == Drawn(ls[..i])
  {
    assert ls[..i + 1][..i] == ls[..i];
    assert Visited(ls[..i]) + [] == Visited(ls[..i]);
    assert Drawn(ls[..i]) + [] == Drawn(ls[..i]);
  }

  lemma DrawnOfStep(es: seq<Sprite>, j: int)
    requires 0 <= j < |es|
    ensures es[j].visible && es[j].currentCostume.Some? ==> DrawnOf(es[..j + 1]) == DrawnOf(es[..j]) + [es[j]]
    ensures !(es[j].visible && es[j].currentCostume.Some?) ==> DrawnOf(es[..j + 1]) == DrawnOf(es[..j])
  {
    assert es[..j + 1][..j] == es[..j];
    assert DrawnOf(es[..j]) + [] == DrawnOf(es[..j]);
  }

  /** The visit order follows the layers' z-indices. */
  lemma RenderVisitsInZOrder(r: Renderer)
    requires r.Valid()
    ensures forall k :: 0 <= k < |Visited(r.SortedLayers())| ==> Visited(r.SortedLayers())[k] in r.layers
    ensures forall j, k :: 0 <= j < k < |Visited(r.SortedLayers())| ==>
      r.layers[Visited(r.SortedLayers())[j]].zIndex <= r.layers[Visited(r.SortedLayers())[k]].zIndex
  {
    var ls := r.SortedLayers();
    var z := map n | n in r.layers :: r.layers[n].zIndex;
    var es := Entries(r.layerNames, r.layers);
    forall i | 0 <= i < |ls| ensures ls[i].0 in z && z[ls[i].0] == ls[i].1.zIndex {
      assert ls[i] in multiset(es);
      var m :| 0 <= m < |es| && es[m] == ls[i];
    }
    VisitedInZOrder(ls, z);
  }
}
