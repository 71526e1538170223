/**
 * A render scene (graphics/src/scene.c): an ordered list of layers, most
 * recently added first.  Rendering and cleaning call into each layer; the
 * layers themselves are opaque here.
 */
module Scenes {
  import opened Values

  /** An NtSceneLayer instance; 0 is NULL. */
  type Layer = Addr
  /** An NtRenderer instance; 0 is NULL. */
  type Renderer = Addr

  /** A call scene.c makes into a layer. */
  datatype LayerCall =
    | Render(layer: Layer, renderer: Renderer)   // nt_scene_layer_render
    | Clean(layer: Layer)                        // nt_scene_layer_clean

  class Scene {
    /** priv->layers, head first. */
    var layers: seq<Layer>

    /** Only scene layers are ever added. */
    ghost predicate Valid()
      reads this
    {
      forall i :: 0 <= i < |layers| ==> layers[i] != Null
    }

    /** nt_scene_construct: no layers. */
    constructor ()
      ensures Valid() && layers == []
    {
      layers := [];
    }

    /** nt_scene_add_layer: the layer goes to the front; adding it again adds a second entry. */
    method AddLayer(layer: Layer)
      requires Valid() && layer != Null
      modifies this
      ensures Valid()
      ensures layers == [layer] + old(layers)
    {
      layers := [layer] + layers;
    }

    /**
     * nt_scene_render: renders each entry once with `renderer`, in list
     * order; the layer list is not changed.
     */
    method RenderAll(renderer: Renderer) returns (calls: seq<LayerCall>)
      requires Valid() && renderer != Null
      ensures |calls| == |layers|
      ensures forall i :: 0 <= i < |layers| ==> calls[i] == Render(layers[i], renderer)
    {
      calls := [];
      for i := 0 to |layers|
        invariant |calls| == i
        invariant forall j :: 0 <= j < i ==> calls[j] == Render(layers[j], renderer)
      {
        calls := calls + [Render(layers[i], renderer)];
      }
    }

    /** nt_scene_clean: cleans each entry once, in the same order as rendering. */
    method CleanAll() returns (calls: seq<LayerCall>)
      requires Valid()
      ensures |calls| == |layers|
      ensures forall i :: 0 <= i < |layers| ==> calls[i] == Clean(layers[i])
    {
      calls := [];
      for i := 0 to |layers|
        invariant |calls| == i
        invariant forall j :: 0 <= j < i ==> calls[j] == Clean(layers[j])
      {
        calls := calls + [Clean(layers[i])];
      }
    }

    /**
     * nt_scene_destroy: releases each listed layer once, in list order, and
     * frees every entry; returns the layers released.
     */
    method Destroy() returns (unreffed: seq<Layer>)
      modifies this
      ensures unreffed == old(layers) && layers == []
    {
      unreffed := [];
      while layers != []
        invariant unreffed + layers == old(layers)
      {
        unreffed := unreffed + [layers[0]];
        layers := layers[1..];
      }
    }
  }

  /** A layer added twice is rendered twice per frame, and the newest layer first. */
  method AddTwiceScenario(base: Layer, top: Layer, renderer: Renderer) returns (calls: seq<LayerCall>)
    requires base != Null && top != Null && renderer != Null
    ensures calls == [Render(top, renderer), Render(top, renderer), Render(base, renderer)]
  {
    var scene := new Scene();
    scene.AddLayer(base);
    scene.AddLayer(top);
    scene.AddLayer(top);
    calls := scene.RenderAll(renderer);
  }
}
