/**
 * The bookkeeping of the 3D viewer component: which files are sent to the
 * STEP-to-STL converter, the error text a failed load surfaces, the reference
 * slots it fills and `cleanup` empties, and the guard on taking a screenshot.
 * The scene graph library, the renderer and the converter's HTTP round trip
 * are abstract: their outcomes are parameters.
 */
module ModelViewer {
  import opened Wrappers
  import Text

  /** A file the user picked: its name and its bytes. */
  datatype ModelFile = ModelFile(name: string, bytes: seq<bv8>)

  datatype Vector3 = Vector3(x: real, y: real, z: real)

  /** What `takeScreenshot` hands to `onPartSelect`. */
  datatype PartSelection = PartSelection(screenshot: string, position: Vector3)

  datatype Camera = Camera(position: Vector3)

  /** A child of the scene: its identity and the GPU resources it may hold. */
  datatype SceneObject = SceneObject(id: nat, geometry: Option<nat>, material: Option<nat>)

  /** A `dispose()` call, recorded in the order `cleanup` makes it. */
  datatype Disposal = Geometry(id: nat) | Material(id: nat) | Controls(id: nat) | Renderer(id: nat)

  /** `requestAnimationFrame` handles are positive, so a set handle is always truthy. */
  type FrameId = n: nat | n > 0 witness 1

  /** How the conversion service answered: an STL body, a non-ok status, or no answer. */
  datatype ConversionResponse =
    | Converted(stl: seq<bv8>)
    | NotOk(status: nat, body: string)
    | TransportFailed(message: string)

  /** The file name test that decides whether a model goes through the converter. */
  predicate NeedsConversion(name: string) {
    var lower := Text.Lower(name);
    Text.EndsWith(lower, ".step") || Text.EndsWith(lower, ".stp")
  }

  /** `convertStepToStl`: the converted file, or the message of the error it throws. */
  function ConvertStepToStl(response: ConversionResponse): (r: Result<ModelFile>)
    ensures r.Ok? <==> response.Converted?
    ensures r.Ok? ==> r.value == ModelFile("converted.stl", response.stl)
    ensures response.NotOk? ==> r == Err("Failed to convert STEP file")
    ensures response.TransportFailed? ==> r == Err(response.message)
  {
    match response
    case Converted(stl) => Ok(ModelFile("converted.stl", stl))
    case NotOk(_, _) => Err("Failed to convert STEP file")
    case TransportFailed(message) => Err(message)
  }

  /** The file handed to the STL reader, or the message of the error the load throws. */
  function FileToLoad(file: ModelFile, response: ConversionResponse): (r: Result<ModelFile>)
    ensures !NeedsConversion(file.name) ==> r == Ok(file)
    ensures NeedsConversion(file.name) ==> (r.Ok? <==> response.Converted?)
    ensures NeedsConversion(file.name) && r.Ok? ==> r.value.name == "converted.stl"
  {
    if NeedsConversion(file.name) then
      match ConvertStepToStl(response)
      case Ok(converted) => Ok(converted)
      case Err(message) => Err("Failed to convert STEP file: " + message)
    else Ok(file)
  }

  /** The text shown to the user when the load throws with `message`. */
  function LoadErrorText(message: string): (r: string)
    ensures |r| > |message| && r[|r| - |message|..] == message
    ensures r[..|r| - |message|] == "Failed to load model: "
  {
    "Failed to load model: " + message
  }

  /** An STL file is read as it is: the converter's answer plays no part. */
  lemma StlBypassesConversion(file: ModelFile, response: ConversionResponse)
    requires Text.EndsWith(Text.Lower(file.name), ".stl")
    ensures FileToLoad(file, response) == Ok(file)
  {
    var lower := Text.Lower(file.name);
    var n := |lower|;
    assert lower[n - 1] == 'l';
  }

  /** A STEP file is loaded only as the converter's output, and a failed conversion
      surfaces as "Failed to load model: Failed to convert STEP file: ...". */
  lemma StepGoesThroughConverter(file: ModelFile, response: ConversionResponse)
    requires NeedsConversion(file.name)
    ensures FileToLoad(file, response).Ok? <==> response.Converted?
    ensures response.Converted? ==>
      FileToLoad(file, response) == Ok(ModelFile("converted.stl", response.stl))
    ensures response.NotOk? ==>
      FileToLoad(file, response) == Err("Failed to convert STEP file: " + "Failed to convert STEP file")
    ensures response.TransportFailed? ==>
      FileToLoad(file, response) == Err("Failed to convert STEP file: " + response.message)
  {
  }

  /** A scene: the ordered list of its children. */
  class SceneGraph {
    var children: seq<SceneObject>

    constructor (children: seq<SceneObject>)
      ensures this.children == children
    {
      this.children := children;
    }

    /** `scene.remove(object)`: drops the first occurrence of `child`, if any. */
    method Remove(child: SceneObject)
      modifies this
      ensures children == RemoveFirst(old(children), child)
    {
      children := RemoveFirst(children, child);
    }

    /** The loop of `cleanup` over the scene: while children remain, dispose the first
        one's geometry and material and remove it. Returns the disposals in order. */
    method DrainDisposing() returns (freed: seq<Disposal>)
      modifies this
      ensures children == []
      ensures freed == ChildDisposals(old(children))
    {
      freed := [];
      while |children| > 0
        invariant freed + ChildDisposals(children) == ChildDisposals(old(children))
        decreases |children|
      {
        var child := children[0];
        freed := freed + ObjectDisposals(child);
        Remove(child);
      }
    }
  }

  /** The DOM element the canvas lives in: the ordered list of its child nodes. */
  class Container {
    var children: seq<nat>

    constructor ()
      ensures children == []
    {
      children := [];
    }

    /** `container.appendChild(node)`. */
    method AppendChild(node: nat)
      modifies this
      ensures children == old(children) + [node]
    {
      children := children + [node];
    }

    /** `container.removeChild(node)` for a node that is a child. */
    method RemoveChild(node: nat)
      requires node in children
      modifies this
      ensures children == RemoveFirst(old(children), node)
    {
      children := RemoveFirst(children, node);
    }

    /** The loop of `cleanup` over the container: remove the first child until none is left. */
    method RemoveAllChildren()
      modifies this
      ensures children == []
    {
      while |children| > 0
        decreases |children|
      {
        RemoveChild(children[0]);
      }
    }
  }

  function RemoveFirst<T(==)>(s: seq<T>, x: T): (r: seq<T>)
    ensures s != [] && s[0] == x ==> r == s[1..]
    ensures x in s ==> |r| == |s| - 1
  {
    if s == [] then [] else if s[0] == x then s[1..] else [s[0]] + RemoveFirst(s[1..], x)
  }

  /** The resources one scene child gives back: its geometry, then its material. */
  function ObjectDisposals(o: SceneObject): seq<Disposal> {
    (if o.geometry.Some? then [Geometry(o.geometry.value)] else [])
    + (if o.material.Some? then [Material(o.material.value)] else [])
  }

  function MeshDisposals(mesh: Option<SceneObject>): seq<Disposal> {
    if mesh.Some? then ObjectDisposals(mesh.value) else []
  }

  function ControlsDisposals(controls: Option<nat>): seq<Disposal> {
    if controls.Some? then [Controls(controls.value)] else []
  }

  function RendererDisposals(renderer: Option<nat>): seq<Disposal> {
    if renderer.Some? then [Renderer(renderer.value)] else []
  }

  /** The resources the scene children give back, first child first. */
  function ChildDisposals(children: seq<SceneObject>): seq<Disposal> {
    if children == [] then [] else ObjectDisposals(children[0]) + ChildDisposals(children[1..])
  }

  /** Draining the scene frees every geometry and material any child holds: nothing a
      child owns is left undisposed. */
  lemma {:induction false} ChildDisposalsCover(children: seq<SceneObject>, k: nat)
    requires k < |children|
    ensures children[k].geometry.Some? ==> Geometry(children[k].geometry.value) in ChildDisposals(children)
    ensures children[k].material.Some? ==> Material(children[k].material.value) in ChildDisposals(children)
    decreases k
  {
    var rest := ChildDisposals(children[1..]);
    assert ChildDisposals(children) == ObjectDisposals(children[0]) + rest;
    if k > 0 {
      ChildDisposalsCover(children[1..], k - 1);
      assert children[1..][k - 1] == children[k];
    }
  }

  /** The state of one viewer: its flags and its reference slots. */
  class Viewer {
    var loading: bool
    var error: Option<string>
    var container: Container?
    var renderer: Option<nat>
    var scene: SceneGraph?
    var camera: Option<Camera>
    var controls: Option<nat>
    var mesh: Option<SceneObject>
    var animationFrame: Option<FrameId>
    /** Animation frames handed to `cancelAnimationFrame`, in order. */
    var cancelled: seq<FrameId>
    /** `dispose()` calls, in order. */
    var disposed: seq<Disposal>

    /** A mounted viewer: every reference slot empty, not loading, no error. */
    constructor (container: Container?)
      ensures this.container == container
      ensures !loading && error == None
      ensures renderer == None && scene == null && camera == None && controls == None
      ensures mesh == None && animationFrame == None
      ensures cancelled == [] && disposed == []
    {
      this.container := container;
      loading, error := false, None;
      renderer, scene, camera, controls := None, null, None, None;
      mesh, animationFrame := None, None;
      cancelled, disposed := [], [];
    }

    /** Entering `loadModelFile`: nothing happens without a container; otherwise the
        viewer is loading and the previous error is cleared. */
    method BeginLoad() returns (started: bool)
      modifies this
      ensures started <==> container != null
      ensures started ==> loading && error == None
      ensures !started ==> loading == old(loading) && error == old(error)
      ensures container == old(container) && renderer == old(renderer) && scene == old(scene)
      ensures camera == old(camera) && controls == old(controls) && mesh == old(mesh)
      ensures animationFrame == old(animationFrame)
      ensures cancelled == old(cancelled) && disposed == old(disposed)
    {
      started := container != null;
      if started {
        loading := true;
        error := None;
      }
    }

    /** The rest of `loadModelFile`. A conversion failure ends the load with its error
        text. Otherwise a fresh scene holding the two lights, a camera and a renderer are
        put in the slots and the canvas joins the container; the STL reader then either
        adds the parsed mesh (`parsed`) or reports that the model could not be processed.
        Either way the viewer stops loading. */
    method ResolveLoad(file: ModelFile, response: ConversionResponse,
                       lights: seq<SceneObject>, rendererId: nat, canvas: nat,
                       parsed: Option<SceneObject>)
      returns (loaded: Option<ModelFile>)
      requires container != null
      modifies this, container
      ensures !loading && container == old(container)
      ensures FileToLoad(file, response).Err? ==>
        loaded == None && error == Some(LoadErrorText(FileToLoad(file, response).message))
        && scene == old(scene) && camera == old(camera) && renderer == old(renderer)
        && container.children == old(container.children)
      ensures FileToLoad(file, response).Ok? ==>
        loaded == Some(FileToLoad(file, response).value)
        && scene != null && fresh(scene) && renderer == Some(rendererId)
        && container.children == old(container.children) + [canvas]
        && (parsed.Some? ==> error == old(error) && scene.children == lights + [parsed.value]
                             && camera == Some(Camera(Vector3(5.0, 5.0, 5.0))))
        && (parsed.None? ==> error == Some("Failed to process model") && scene.children == lights
                             && camera == Some(Camera(Vector3(0.0, 0.0, 10.0))))
      ensures controls == old(controls) && mesh == old(mesh) && animationFrame == old(animationFrame)
      ensures cancelled == old(cancelled) && disposed == old(disposed)
    {
      var toLoad := FileToLoad(file, response);
      if toLoad.Err? {
        error := Some(LoadErrorText(toLoad.message));
        loading := false;
        loaded := None;
        return;
      }
      loaded := Some(toLoad.value);
      var built := new SceneGraph(lights);
      scene := built;
      camera := Some(Camera(Vector3(0.0, 0.0, 10.0)));
      renderer := Some(rendererId);
      container.AppendChild(canvas);
      if parsed.Some? {
        built.children := built.children + [parsed.value];
        camera := Some(Camera(Vector3(5.0, 5.0, 5.0)));
      } else {
        error := Some("Failed to process model");
      }
      loading := false;
    }

    /** `takeScreenshot`: with renderer, scene and camera all set and a callback given,
        the callback receives the canvas image and the camera position; otherwise
        nothing is reported. Nothing in the viewer changes. */
    method TakeScreenshot(canvasImage: string, hasCallback: bool)
      returns (selection: Option<PartSelection>)
      ensures selection.Some? <==>
        renderer.Some? && scene != null && camera.Some? && hasCallback
      ensures selection.Some? ==>
        selection.value == PartSelection(canvasImage, camera.value.position)
    {
      if renderer.None? || scene == null || camera.None? {
        return None;
      }
      if hasCallback {
        selection := Some(PartSelection(canvasImage, camera.value.position));
      } else {
        selection := None;
      }
    }

    /** `cleanup`: cancels the animation frame, disposes the mesh, drains the scene one
        child at a time, disposes the controls and the renderer, empties every one of
        those slots and removes every node of the container. The camera slot is kept. */
    method Cleanup()
      modifies this, scene, container
      ensures animationFrame == None && mesh == None && scene == null
      ensures controls == None && renderer == None
      ensures old(scene) != null ==> old(scene).children == []
      ensures container != null ==> container.children == []
      ensures cancelled == old(cancelled)
        + (if old(animationFrame).Some? then [old(animationFrame).value] else [])
      ensures disposed == old(disposed) + MeshDisposals(old(mesh))
        + (if old(scene) != null then ChildDisposals(old(scene.children)) else [])
        + ControlsDisposals(old(controls)) + RendererDisposals(old(renderer))
      ensures container == old(container) && camera == old(camera)
      ensures loading == old(loading) && error == old(error)
    {
      ReleaseFrameAndMesh();
      ReleaseScene();
      ReleaseControlsAndRenderer();
      if container != null {
        container.RemoveAllChildren();
      }
    }

    /** The first two steps of `cleanup`: the animation frame and the mesh slot. */
    method ReleaseFrameAndMesh()
      modifies this
      ensures animationFrame == None && mesh == None
      ensures cancelled == old(cancelled)
        + (if old(animationFrame).Some? then [old(animationFrame).value] else [])
      ensures disposed == old(disposed) + MeshDisposals(old(mesh))
      ensures scene == old(scene) && controls == old(controls) && renderer == old(renderer)
      ensures container == old(container) && camera == old(camera)
      ensures loading == old(loading) && error == old(error)
    {
      if animationFrame.Some? {
        cancelled := cancelled + [animationFrame.value];
        animationFrame := None;
      }
      if mesh.Some? {
        disposed := disposed + ObjectDisposals(mesh.value);
        mesh := None;
      }
    }

    /** The scene step of `cleanup`: drain the children, then empty the slot. */
    method ReleaseScene()
      modifies this, scene
      ensures scene == null
      ensures old(scene) != null ==> old(scene).children == []
      ensures disposed == old(disposed)
        + (if old(scene) != null then ChildDisposals(old(scene.children)) else [])
      ensures animationFrame == old(animationFrame) && mesh == old(mesh) && cancelled == old(cancelled)
      ensures controls == old(controls) && renderer == old(renderer)
      ensures container == old(container) && camera == old(camera)
      ensures loading == old(loading) && error == old(error)
    {
      if scene != null {
        var freed := scene.DrainDisposing();
        disposed := disposed + freed;
        scene := null;
      }
    }

    /** The controls and renderer steps of `cleanup`. */
    method ReleaseControlsAndRenderer()
      modifies this
      ensures controls == None && renderer == None
      ensures disposed == old(disposed) + ControlsDisposals(old(controls)) + RendererDisposals(old(renderer))
      ensures animationFrame == old(animationFrame) && mesh == old(mesh) && cancelled == old(cancelled)
      ensures scene == old(scene) && container == old(container) && camera == old(camera)
      ensures loading == old(loading) && error == old(error)
    {
      if controls.Some? {
        disposed := disposed + [Controls(controls.value)];
        controls := None;
      }
      if renderer.Some? {
        disposed := disposed + [Renderer(renderer.value)];
        renderer := None;
      }
    }
  }
}
