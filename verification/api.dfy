/** The scene-description API (rustracer-core/src/api.rs): a state machine
  * Uninitialized → OptionsBlock → WorldBlock driven by the parser's calls,
  * with stacks of saved graphics states and transforms, named coordinate
  * systems, named materials, textures and object instances. Transforms are
  * kept symbolically (the matrix arithmetic is not modelled); shapes,
  * lights and textures are recorded by kind and by the parameters they
  * were created from. */
module SceneApi {
  import opened Wrappers
  import opened ParamSets

  // ---------------------------------------------------------------------------
  // ApiState (api.rs:49-92)
  // ---------------------------------------------------------------------------

  datatype ApiState = Uninitialized | OptionsBlock | WorldBlock

  type Outcome = Result<(), string>

  /** `verify_uninitialized`: only before `init`. */
  function VerifyUninitialized(s: ApiState): (r: Outcome)
    ensures r.Ok? <==> s == Uninitialized
  {
    if s == Uninitialized then Ok(()) else Err("Api::init() has already been called!")
  }

  /** `verify_initialized`: any state after `init`. */
  function VerifyInitialized(s: ApiState): (r: Outcome)
    ensures r.Ok? <==> s != Uninitialized
  {
    if s == Uninitialized then Err("Api::init() has not been called!") else Ok(())
  }

  /** `verify_options`: the initialisation check first, then outside the
    * world block. */
  function VerifyOptions(s: ApiState): (r: Outcome)
    ensures r.Ok? <==> s == OptionsBlock
    ensures s == Uninitialized ==> r == VerifyInitialized(s)
  {
    if VerifyInitialized(s).Err? then VerifyInitialized(s)
    else if s == WorldBlock then Err("Options cannot be set inside world block.")
    else Ok(())
  }

  /** `verify_world`: the initialisation check first, then inside the world
    * block. */
  function VerifyWorld(s: ApiState): (r: Outcome)
    ensures r.Ok? <==> s == WorldBlock
    ensures s == Uninitialized ==> r == VerifyInitialized(s)
  {
    if VerifyInitialized(s).Err? then VerifyInitialized(s)
    else if s == OptionsBlock then Err("Scene description must be inside world block.")
    else Ok(())
  }

  // ---------------------------------------------------------------------------
  // Scene values
  // ---------------------------------------------------------------------------

  /** The elementary transforms of the API calls. */
  datatype TransformOp =
    | Translate(dx: real, dy: real, dz: real)
    | Rotate(angle: real, ax: real, ay: real, az: real)
    | Scale(sx: real, sy: real, sz: real)
    | LookAt(eye: Triple, look: Triple, up: Triple)
    | Matrix(m: seq<real>)

  /** A transform as the expression that built it. */
  datatype Transform =
    | Identity
    | Elementary(op: TransformOp)
    | Product(left: Transform, right: Transform)
    | Inverse(t: Transform)

  /** A texture definition: its kind, the transform current when it was
    * defined and its parameters. */
  datatype TextureDef = TextureDef(kind: string, toWorld: Transform, params: Lists)

  datatype Material = Basic(kind: string) | Mix(first: Material, second: Material)

  type ShapeId = nat

  datatype Light =
    | PointLight(toWorld: Transform, params: Lists)
    | DistantLight(toWorld: Transform, params: Lists)
    | InfiniteAreaLight(toWorld: Transform, params: Lists)
    | DiffuseAreaLight(toWorld: Transform, params: Lists, shape: ShapeId)

  datatype Primitive =
    | Geometric(shape: ShapeId, areaLight: Option<Light>, material: Option<Material>)
    | TransformedPrimitive(primitive: Primitive, primitiveToWorld: Transform)
    | Accelerator(prims: seq<Primitive>)

  /** A renderer component chosen by name, with its parameters. */
  datatype Choice = Choice(name: string, params: Lists)

  datatype RenderOptions = RenderOptions(
    filter: Choice,
    film: Choice,
    sampler: Choice,
    accelerator: Choice,
    integrator: Choice,
    camera: Choice,
    cameraToWorld: Transform,
    lights: seq<Light>,
    primitives: seq<Primitive>,
    instances: map<string, seq<Primitive>>,
    currentInstance: Option<string>)

  /** `RenderOptions::default()`. */
  const DefaultRenderOptions := RenderOptions(
    Choice("box", EmptyLists), Choice("image", EmptyLists), Choice("halton", EmptyLists),
    Choice("bvh", EmptyLists), Choice("path", EmptyLists), Choice("perspective", EmptyLists),
    Identity, [], [], map[], None)

  datatype GraphicsState = GraphicsState(
    floatTextures: map<string, TextureDef>,
    spectrumTextures: map<string, TextureDef>,
    materialParams: Lists,
    material: string,
    namedMaterials: map<string, Material>,
    currentNamedMaterial: string,
    areaLightParams: Lists,
    areaLight: string,
    reverseOrientation: bool)

  /** `GraphicsState::default()`. */
  const DefaultGraphicsState := GraphicsState(map[], map[], EmptyLists, "matte", map[], "", EmptyLists, "", false)

  datatype State = State(
    apiState: ApiState,
    renderOptions: RenderOptions,
    curTransform: Transform,
    namedCoordinateSystems: map<string, Transform>,
    pushedTransforms: seq<Transform>,
    graphicsState: GraphicsState,
    pushedGraphicsStates: seq<GraphicsState>)

  const DefaultState := State(Uninitialized, DefaultRenderOptions, Identity, map[], [], DefaultGraphicsState, [])

  // ---------------------------------------------------------------------------
  // make_material, create_material, make_accelerator, make_light
  // ---------------------------------------------------------------------------

  /** The material kinds `make_material` knows besides "mix". */
  const MATERIAL_KINDS: set<string> :=
    {"matte", "plastic", "glass", "mirror", "metal", "substrate", "translucent", "uber", "disney", "fourier"}

  /** Every basic material in m is of a known kind. */
  predicate KnownMaterial(m: Material)
  {
    match m
    case Basic(kind) => kind in MATERIAL_KINDS
    case Mix(a, b) => KnownMaterial(a) && KnownMaterial(b)
  }

  /** The `find_string` calls of a "mix" material do not panic. */
  predicate MixNamesDefined(geom: Lists, mat: Lists)
  {
    FindOneDefined(geom.strings, "namedmaterial1") && FindOneDefined(mat.strings, "namedmaterial1") &&
    FindOneDefined(geom.strings, "namedmaterial2") && FindOneDefined(mat.strings, "namedmaterial2")
  }

  /** `make_material` (api.rs:1141-1183): a known kind is made as such, "mix"
    * combines two named materials (matte for an undefined name), and any
    * other name falls back to matte. */
  function MakeMaterial(name: string, geom: Lists, mat: Lists, named: map<string, Material>): (r: Material)
    requires name == "mix" ==> MixNamesDefined(geom, mat)
    ensures name in MATERIAL_KINDS ==> r == Basic(name)
    ensures name !in MATERIAL_KINDS && name != "mix" ==> r == Basic("matte")
    ensures name == "mix" ==>
              r.Mix? &&
              (r.first in named.Values || r.first == Basic("matte")) &&
              (r.second in named.Values || r.second == Basic("matte"))
  {
    if name in MATERIAL_KINDS then Basic(name)
    else if name == "mix" then
      var n1 := LayeredFindOne(geom.strings, mat.strings, "namedmaterial1", "");
      var n2 := LayeredFindOne(geom.strings, mat.strings, "namedmaterial2", "");
      Mix(if n1 in named then named[n1] else Basic("matte"),
          if n2 in named then named[n2] else Basic("matte"))
    else Basic("matte")
  }

  /** Unknown names give matte, and with known named materials the result
    * is always a known material. */
  lemma MakeMaterialKnown(name: string, geom: Lists, mat: Lists, named: map<string, Material>)
    requires name == "mix" ==> MixNamesDefined(geom, mat)
    requires forall n :: n in named ==> KnownMaterial(named[n])
    ensures name !in MATERIAL_KINDS && name != "mix" ==> MakeMaterial(name, geom, mat, named) == Basic("matte")
    ensures name in MATERIAL_KINDS ==> MakeMaterial(name, geom, mat, named) == Basic(name)
    ensures KnownMaterial(MakeMaterial(name, geom, mat, named))
  {
  }

  /** The lookups `create_material` makes do not panic. */
  predicate CreateMaterialDefined(gs: GraphicsState, params: Lists)
  {
    gs.currentNamedMaterial == "" && gs.material == "mix" ==> MixNamesDefined(params, gs.materialParams)
  }

  /** `GraphicsState::create_material`: the current named material when one
    * is set (matte when that name is undefined), else the current material
    * made from the shape's and the material's parameters. */
  function CreateMaterial(gs: GraphicsState, params: Lists): (r: Material)
    requires CreateMaterialDefined(gs, params)
    ensures gs.currentNamedMaterial != "" && gs.currentNamedMaterial in gs.namedMaterials ==>
      r == gs.namedMaterials[gs.currentNamedMaterial]
    ensures gs.currentNamedMaterial != "" && gs.currentNamedMaterial !in gs.namedMaterials ==>
      r == Basic("matte")
    ensures (forall n :: n in gs.namedMaterials ==> KnownMaterial(gs.namedMaterials[n])) ==> KnownMaterial(r)
  {
    if gs.currentNamedMaterial != "" then
      if gs.currentNamedMaterial in gs.namedMaterials then gs.namedMaterials[gs.currentNamedMaterial]
      else MakeMaterial("matte", params, gs.materialParams, gs.namedMaterials)
    else
      MakeMaterialKnownIf(gs.material, params, gs.materialParams, gs.namedMaterials);
      MakeMaterial(gs.material, params, gs.materialParams, gs.namedMaterials)
  }

  lemma MakeMaterialKnownIf(name: string, geom: Lists, mat: Lists, named: map<string, Material>)
    requires name == "mix" ==> MixNamesDefined(geom, mat)
    ensures (forall n :: n in named ==> KnownMaterial(named[n])) ==>
      KnownMaterial(MakeMaterial(name, geom, mat, named))
  {
    if forall n :: n in named ==> KnownMaterial(named[n]) {
      MakeMaterialKnown(name, geom, mat, named);
    }
  }

  /** `make_accelerator` (api.rs:263-276): "kdtree" is unimplemented; "bvh"
    * and every unknown name build a BVH over the primitives. */
  function MakeAccelerator(name: string, prims: seq<Primitive>): (r: Primitive)
    requires name != "kdtree"
    ensures r.Accelerator? && r.prims == prims
  {
    Accelerator(prims)
  }

  /** `make_light`: point, distant and infinite lights; any other name is an
    * error. */
  function MakeLight(name: string, params: Lists, toWorld: Transform): (r: Result<Light, string>)
    ensures r.Ok? <==> name in {"point", "distant", "infinite"}
    ensures r.Ok? ==> r.value.toWorld == toWorld && r.value.params == params && !r.value.DiffuseAreaLight?
  {
    if name == "point" then Ok(PointLight(toWorld, params))
    else if name == "distant" then Ok(DistantLight(toWorld, params))
    else if name == "infinite" then Ok(InfiniteAreaLight(toWorld, params))
    else Err("Unsupported light type")
  }

  /** `make_area_light`: "area" and "diffuse" make a diffuse area light. */
  function MakeAreaLight(name: string, toWorld: Transform, params: Lists, shape: ShapeId): (r: Result<Light, string>)
    ensures r.Ok? <==> name == "area" || name == "diffuse"
    ensures r.Ok? ==> r.value == DiffuseAreaLight(toWorld, params, shape)
  {
    if name == "area" || name == "diffuse" then Ok(DiffuseAreaLight(toWorld, params, shape))
    else Err("Area light " + name + " unknown")
  }

  // ---------------------------------------------------------------------------
  // Shapes and textures made by name
  // ---------------------------------------------------------------------------

  /** The shapes `make_shapes` may return for a name: one for the analytic
    * shapes, any number for meshes, none for an unknown name. Cone,
    * paraboloid, hyperboloid and curve are unimplemented and panic. */
  predicate ShapesFrom(name: string, made: seq<ShapeId>)
  {
    if name in {"sphere", "cylinder", "disk"} then |made| == 1
    else if name in {"trianglemesh", "plymesh"} then true
    else name !in {"cone", "paraboloid", "hyperboloid", "curve"} && |made| == 0
  }

  const FLOAT_TEXTURES: set<string> := {"constant", "scale", "imagemap", "fbm", "mix"}
  const SPECTRUM_TEXTURES: set<string> := {"constant", "scale", "mix", "imagemap", "uv", "checkerboard", "fbm"}
  /** Spectrum texture kinds that are `unimplemented!()`. */
  const UNIMPLEMENTED_TEXTURES: set<string> := {"bilerp", "dots", "wrinkled", "marble", "windy", "ptex"}

  /** The `Shape` primitives of one call, each with the area light made for
    * it when an area light is current. */
  function ShapePrims(gs: GraphicsState, toWorld: Transform, made: seq<ShapeId>, mat: Option<Material>):
    (r: Result<(seq<Primitive>, seq<Light>), string>)
    ensures gs.areaLight == "" ==> r.Ok? && |r.value.1| == 0
    ensures r.Ok? ==> |r.value.0| == |made| && |r.value.1| == (if gs.areaLight == "" then 0 else |made|)
    ensures r.Ok? ==> forall i :: 0 <= i < |made| ==>
      r.value.0[i].Geometric? && r.value.0[i].shape == made[i] && r.value.0[i].material == mat &&
      (r.value.0[i].areaLight.Some? <==> gs.areaLight != "")
    ensures |made| > 0 && gs.areaLight != "" && !(gs.areaLight in {"area", "diffuse"}) ==> r.Err?
    decreases |made|
  {
    if |made| == 0 then Ok(([], []))
    else
      match ShapePrims(gs, toWorld, made[..|made| - 1], mat)
      case Err(e) => Err(e)
      case Ok(acc) =>
        var s := made[|made| - 1];
        if gs.areaLight != "" then
          match MakeAreaLight(gs.areaLight, toWorld, gs.areaLightParams, s)
          case Err(e) => Err(e)
          case Ok(light) => Ok((acc.0 + [Geometric(s, Some(light), mat)], acc.1 + [light]))
        else Ok((acc.0 + [Geometric(s, None, mat)], acc.1))
  }

  // ---------------------------------------------------------------------------
  // world_end's construction checks
  // ---------------------------------------------------------------------------

  /** `make_camera` (with `make_filter` and `make_film`), `make_integrator`
    * and `make_sampler`, in the order `world_end` calls them. */
  function RenderSetup(ro: RenderOptions): (r: Outcome)
    ensures r.Ok? <==>
      ro.filter.name in {"box", "mitchell", "gaussian", "triangle"} && ro.film.name == "image" &&
      ro.camera.name == "perspective" && ro.integrator.name in {"whitted", "directlighting", "path", "normal"} &&
      ro.sampler.name in {"lowdiscrepancy", "02sequence"}
  {
    if !(ro.filter.name in {"box", "mitchell", "gaussian", "triangle"}) then Err("Filter \"" + ro.filter.name + "\" unknown.")
    else if ro.film.name != "image" then Err("Film \"" + ro.film.name + "\" unknown.")
    else if ro.camera.name != "perspective" then Err("Camera \"" + ro.camera.name + "\" unknown.")
    else if !(ro.integrator.name in {"whitted", "directlighting", "path", "normal"}) then Err("Integrator \"" + ro.integrator.name + "\" unknown.")
    else if !(ro.sampler.name in {"lowdiscrepancy", "02sequence"}) then Err("Sampler \"" + ro.sampler.name + "\" unknown.")
    else Ok(())
  }

  /** The default sampler name is "halton", which `make_sampler` does not
    * know: a scene without a `Sampler` directive fails at `world_end`. */
  lemma DefaultSamplerRejected()
    ensures RenderSetup(DefaultRenderOptions).Err?
    ensures RenderSetup(DefaultRenderOptions.(sampler := Choice("lowdiscrepancy", EmptyLists))).Ok?
  {
  }

  // ---------------------------------------------------------------------------
  // RealApi
  // ---------------------------------------------------------------------------

  /** Every named material is of a known kind. */
  predicate MaterialsKnown(gs: GraphicsState)
  {
    forall n :: n in gs.namedMaterials ==> KnownMaterial(gs.namedMaterials[n])
  }

  /** The current instance, when there is one, has an entry in `instances`. */
  predicate InstanceOpen(ro: RenderOptions)
  {
    ro.currentInstance.Some? ==> ro.currentInstance.value in ro.instances
  }

  class RealApi {
    var state: State

    constructor ()
      ensures state == DefaultState
    {
      state := DefaultState;
    }

    /** The properties every call keeps: named materials are of known kinds
      * (in the current and every saved graphics state) and an open object
      * instance has its list. */
    predicate Valid()
      reads this
    {
      MaterialsKnown(state.graphicsState) &&
      (forall i :: 0 <= i < |state.pushedGraphicsStates| ==> MaterialsKnown(state.pushedGraphicsStates[i])) &&
      InstanceOpen(state.renderOptions)
    }

    /** `init`. */
    method Init() returns (r: Outcome)
      requires Valid()
      modifies this
      ensures Valid()
      ensures r.Ok? <==> old(state).apiState == Uninitialized
      ensures r.Ok? ==> state == old(state).(apiState := OptionsBlock)
      ensures r.Err? ==> state == old(state)
    {
      r := VerifyUninitialized(state.apiState);
      if r.Err? {
        return;
      }
      state := state.(apiState := OptionsBlock);
    }

    /** `identity`. */
    method IdentityCall() returns (r: Outcome)
      requires Valid()
      modifies this
      ensures Valid()
      ensures r == VerifyInitialized(old(state).apiState)
      ensures r.Ok? ==> state == old(state).(curTransform := Identity)
      ensures r.Err? ==> state == old(state)
    {
      r := VerifyInitialized(state.apiState);
      if r.Err? {
        return;
      }
      state := state.(curTransform := Identity);
    }

    /** `translate`, `rotate`, `scale`, `look_at` and `concat_transform`:
      * post-multiply the current transform. */
    method ApplyTransform(op: TransformOp) returns (r: Outcome)
      requires Valid()
      modifies this
      ensures Valid()
      ensures r == VerifyInitialized(old(state).apiState)
      ensures r.Ok? ==> state == old(state).(curTransform := Product(old(state).curTransform, Elementary(op)))
      ensures r.Err? ==> state == old(state)
    {
      r := VerifyInitialized(state.apiState);
      if r.Err? {
        return;
      }
      state := state.(curTransform := Product(state.curTransform, Elementary(op)));
    }

    /** `transform`: replace the current transform. */
    method SetTransform(m: seq<real>) returns (r: Outcome)
      requires Valid()
      modifies this
      ensures Valid()
      ensures r == VerifyInitialized(old(state).apiState)
      ensures r.Ok? ==> state == old(state).(curTransform := Elementary(Matrix(m)))
      ensures r.Err? ==> state == old(state)
    {
      r := VerifyInitialized(state.apiState);
      if r.Err? {
        return;
      }
      state := state.(curTransform := Elementary(Matrix(m)));
    }

    /** `coordinate_system`: name the current transform. */
    method CoordinateSystem(name: string) returns (r: Outcome)
      requires Valid()
      modifies this
      ensures Valid()
      ensures r == VerifyInitialized(old(state).apiState)
      ensures r.Ok? ==> state == old(state).(namedCoordinateSystems :=
        old(state).namedCoordinateSystems[name := old(state).curTransform])
      ensures r.Err? ==> state == old(state)
    {
      r := VerifyInitialized(state.apiState);
      if r.Err? {
        return;
      }
      state := state.(namedCoordinateSystems := state.namedCoordinateSystems[name := state.curTransform]);
    }

    /** `coord_sys_transform`: restore a named transform; an unknown name
      * only logs a warning. */
    method CoordSysTransform(name: string) returns (r: Outcome)
      requires Valid()
      modifies this
      ensures Valid()
      ensures r == VerifyInitialized(old(state).apiState)
      ensures r.Ok? && name in old(state).namedCoordinateSystems ==>
        state == old(state).(curTransform := old(state).namedCoordinateSystems[name])
      ensures r.Err? || name !in old(state).namedCoordinateSystems ==> state == old(state)
    {
      r := VerifyInitialized(state.apiState);
      if r.Err? {
        return;
      }
      if name in state.namedCoordinateSystems {
        state := state.(curTransform := state.namedCoordinateSystems[name]);
      }
    }

    /** `pixel_filter`, `film`, `sampler`, `accelerator` and `integrator`:
      * record the component's name and a copy of its parameters, in the
      * options block only. `which` names the option. */
    method SetOption(which: string, name: string, params: Lists) returns (r: Outcome)
      requires which in {"filter", "film", "sampler", "accelerator", "integrator"}
      requires Valid()
      modifies this
      ensures Valid()
      ensures r == VerifyOptions(old(state).apiState)
      ensures r.Err? ==> state == old(state)
      ensures r.Ok? ==> state == old(state).(renderOptions := WithOption(old(state).renderOptions, which, Choice(name, params)))
    {
      r := VerifyOptions(state.apiState);
      if r.Err? {
        return;
      }
      state := state.(renderOptions := WithOption(state.renderOptions, which, Choice(name, params)));
    }

    /** `camera`: also records the inverse of the current transform as the
      * camera-to-world transform and as the "camera" coordinate system. */
    method Camera(name: string, params: Lists) returns (r: Outcome)
      requires Valid()
      modifies this
      ensures Valid()
      ensures r == VerifyOptions(old(state).apiState)
      ensures r.Err? ==> state == old(state)
      ensures r.Ok? ==> state == old(state).(
        renderOptions := old(state).renderOptions.(camera := Choice(name, params),
                                                  cameraToWorld := Inverse(old(state).curTransform)),
        namedCoordinateSystems := old(state).namedCoordinateSystems["camera" := Inverse(old(state).curTransform)])
    {
      r := VerifyOptions(state.apiState);
      if r.Err? {
        return;
      }
      var c2w := Inverse(state.curTransform);
      state := state.(renderOptions := state.renderOptions.(camera := Choice(name, params), cameraToWorld := c2w));
      state := state.(namedCoordinateSystems := state.namedCoordinateSystems["camera" := c2w]);
    }

    /** `world_begin`: enter the world block, record the current transform
      * as "world", then reset it. */
    method WorldBegin() returns (r: Outcome)
      requires Valid()
      modifies this
      ensures Valid()
      ensures r == VerifyOptions(old(state).apiState)
      ensures r.Err? ==> state == old(state)
      ensures r.Ok? ==> state == old(state).(
        apiState := WorldBlock,
        namedCoordinateSystems := old(state).namedCoordinateSystems["world" := old(state).curTransform],
        curTransform := Identity)
    {
      r := VerifyOptions(state.apiState);
      if r.Err? {
        return;
      }
      state := state.(apiState := WorldBlock);
      state := state.(namedCoordinateSystems := state.namedCoordinateSystems["world" := state.curTransform]);
      state := state.(curTransform := Identity);
    }

    /** `attribute_begin`: push the graphics state and the transform. */
    method AttributeBegin() returns (r: Outcome)
      requires Valid()
      modifies this
      ensures Valid()
      ensures r == VerifyWorld(old(state).apiState)
      ensures r.Err? ==> state == old(state)
      ensures r.Ok? ==> state == old(state).(
        pushedGraphicsStates := old(state).pushedGraphicsStates + [old(state).graphicsState],
        pushedTransforms := old(state).pushedTransforms + [old(state).curTransform])
    {
      r := VerifyWorld(state.apiState);
      if r.Err? {
        return;
      }
      state := state.(pushedGraphicsStates := state.pushedGraphicsStates + [state.graphicsState]);
      state := state.(pushedTransforms := state.pushedTransforms + [state.curTransform]);
    }

    /** `attribute_end`: pop and restore both; unmatched, it is ignored. A
      * transform stack emptied by `transform_end` makes `restore_transform`
      * unwrap None, which the precondition excludes. */
    method AttributeEnd() returns (r: Outcome)
      requires Valid()
      requires |state.pushedGraphicsStates| > 0 ==> |state.pushedTransforms| > 0
      modifies this
      ensures Valid()
      ensures r == VerifyWorld(old(state).apiState)
      ensures r.Err? || |old(state).pushedGraphicsStates| == 0 ==> state == old(state)
      ensures r.Ok? && |old(state).pushedGraphicsStates| > 0 ==>
        var gs, ts := old(state).pushedGraphicsStates, old(state).pushedTransforms;
        state == old(state).(graphicsState := gs[|gs| - 1], pushedGraphicsStates := gs[..|gs| - 1],
                             curTransform := ts[|ts| - 1], pushedTransforms := ts[..|ts| - 1])
    {
      r := VerifyWorld(state.apiState);
      if r.Err? || |state.pushedGraphicsStates| == 0 {
        return;
      }
      var gs := state.pushedGraphicsStates;
      state := state.(graphicsState := gs[|gs| - 1], pushedGraphicsStates := gs[..|gs| - 1]);
      var ts := state.pushedTransforms;
      state := state.(curTransform := ts[|ts| - 1], pushedTransforms := ts[..|ts| - 1]);
    }

    /** `transform_begin`: push the transform. */
    method TransformBegin() returns (r: Outcome)
      requires Valid()
      modifies this
      ensures Valid()
      ensures r == VerifyWorld(old(state).apiState)
      ensures r.Err? ==> state == old(state)
      ensures r.Ok? ==> state == old(state).(pushedTransforms := old(state).pushedTransforms + [old(state).curTransform])
    {
      r := VerifyWorld(state.apiState);
      if r.Err? {
        return;
      }
      state := state.(pushedTransforms := state.pushedTransforms + [state.curTransform]);
    }

    /** `transform_end`: pop and restore the transform; unmatched, it is
      * ignored. */
    method TransformEnd() returns (r: Outcome)
      requires Valid()
      modifies this
      ensures Valid()
      ensures r == VerifyWorld(old(state).apiState)
      ensures r.Err? || |old(state).pushedTransforms| == 0 ==> state == old(state)
      ensures r.Ok? && |old(state).pushedTransforms| > 0 ==>
        var ts := old(state).pushedTransforms;
        state == old(state).(curTransform := ts[|ts| - 1], pushedTransforms := ts[..|ts| - 1])
    {
      r := VerifyWorld(state.apiState);
      if r.Err? || |state.pushedTransforms| == 0 {
        return;
      }
      var ts := state.pushedTransforms;
      state := state.(curTransform := ts[|ts| - 1], pushedTransforms := ts[..|ts| - 1]);
    }

    /** `texture`: a float texture of a known kind, or a colour/spectrum
      * texture of a known kind, is (re)defined under `name`; an unknown kind
      * or type only logs an error. The call itself always succeeds inside
      * the world block; outside it fails before any texture is made. */
    method Texture(name: string, typ: string, texname: string, params: Lists) returns (r: Outcome)
      requires Valid()
      requires state.apiState == WorldBlock && (typ == "color" || typ == "spectrum") ==>
                 texname !in UNIMPLEMENTED_TEXTURES
      modifies this
      ensures Valid()
      ensures r == VerifyWorld(old(state).apiState)
      ensures r.Err? ==> state == old(state)
      ensures r.Ok? ==> state == old(state).(graphicsState := WithTexture(old(state).graphicsState, name, typ,
                                                                      TextureDef(texname, old(state).curTransform, params)))
    {
      r := VerifyWorld(state.apiState);
      if r.Err? {
        return;
      }
      var def := TextureDef(texname, state.curTransform, params);
      var gs := state.graphicsState;
      if typ == "float" {
        if texname in FLOAT_TEXTURES {
          state := state.(graphicsState := gs.(floatTextures := gs.floatTextures[name := def]));
        }
      } else if typ == "color" || typ == "spectrum" {
        if texname in SPECTRUM_TEXTURES {
          state := state.(graphicsState := gs.(spectrumTextures := gs.spectrumTextures[name := def]));
        }
      }
    }

    /** `make_named_material`: the "type" string of the given parameters
      * must be present; the material made from it is (re)defined under
      * `name`. There is no state check. */
    method MakeNamedMaterial(name: string, params: Lists) returns (r: Outcome)
      requires Valid()
      requires FindOneDefined(params.strings, "type")
      requires FindOneValue(params.strings, "type", "") == "mix" ==> MixNamesDefined(params, EmptyLists)
      modifies this
      ensures Valid()
      ensures r.Ok? <==> FindOneValue(params.strings, "type", "") != ""
      ensures r.Err? ==> state == old(state)
      ensures r.Ok? ==>
        var gs := old(state).graphicsState;
        state == old(state).(graphicsState := gs.(namedMaterials := gs.namedMaterials[name :=
          MakeMaterial(FindOneValue(params.strings, "type", ""), params, EmptyLists, gs.namedMaterials)]))
    {
      var matName := LayeredFindOne(params.strings, EmptyLists.strings, "type", "");
      if matName == "" {
        return Err("No parameter string \"type\" found in named_material");
      }
      var gs := state.graphicsState;
      MakeMaterialKnown(matName, params, EmptyLists, gs.namedMaterials);
      var mtl := MakeMaterial(matName, params, EmptyLists, gs.namedMaterials);
      state := state.(graphicsState := gs.(namedMaterials := gs.namedMaterials[name := mtl]));
      r := Ok(());
    }

    /** `material`: set the current material and its parameters and clear
      * the current named material. There is no state check. */
    method MaterialCall(name: string, params: Lists) returns (r: Outcome)
      requires Valid()
      modifies this
      ensures Valid()
      ensures r.Ok?
      ensures state == old(state).(graphicsState :=
        old(state).graphicsState.(material := name, materialParams := params, currentNamedMaterial := ""))
    {
      state := state.(graphicsState := state.graphicsState.(material := name, materialParams := params, currentNamedMaterial := ""));
      r := Ok(());
    }

    /** `named_material`: select a named material. */
    method NamedMaterial(name: string) returns (r: Outcome)
      requires Valid()
      modifies this
      ensures Valid()
      ensures r == VerifyWorld(old(state).apiState)
      ensures r.Err? ==> state == old(state)
      ensures r.Ok? ==> state == old(state).(graphicsState := old(state).graphicsState.(currentNamedMaterial := name))
    {
      r := VerifyWorld(state.apiState);
      if r.Err? {
        return;
      }
      state := state.(graphicsState := state.graphicsState.(currentNamedMaterial := name));
    }

    /** `lightsource`: append a light made with the current transform. */
    method LightSource(name: string, params: Lists) returns (r: Outcome)
      requires Valid()
      modifies this
      ensures Valid()
      ensures r.Ok? <==> old(state).apiState == WorldBlock && name in {"point", "distant", "infinite"}
      ensures r.Err? ==> state == old(state)
      ensures r.Ok? ==> state == old(state).(renderOptions := old(state).renderOptions.(lights :=
        old(state).renderOptions.lights + [MakeLight(name, params, old(state).curTransform).value]))
    {
      r := VerifyWorld(state.apiState);
      if r.Err? {
        return;
      }
      var lt := MakeLight(name, params, state.curTransform);
      if lt.Err? {
        return Err(lt.error);
      }
      state := state.(renderOptions := state.renderOptions.(lights := state.renderOptions.lights + [lt.value]));
    }

    /** `arealightsource`: set the current area light. There is no state
      * check. */
    method AreaLightSource(name: string, params: Lists) returns (r: Outcome)
      requires Valid()
      modifies this
      ensures Valid()
      ensures r.Ok?
      ensures state == old(state).(graphicsState := old(state).graphicsState.(areaLight := name, areaLightParams := params))
    {
      state := state.(graphicsState := state.graphicsState.(areaLight := name, areaLightParams := params));
      r := Ok(());
    }

    /** `shape`: `made` are the shapes `make_shapes` built for the name. Each
      * becomes a primitive with the current material (made once, only when
      * there are shapes) and, when an area light is current, its own area
      * light. Inside an object instance the primitives go to the instance
      * and the area lights are dropped; otherwise both go to the scene.
      * Outside the world block it fails before any shape is made. */
    method Shape(name: string, params: Lists, made: seq<ShapeId>) returns (r: Outcome)
      requires Valid()
      requires state.apiState == WorldBlock ==> ShapesFrom(name, made)
      requires state.apiState == WorldBlock && |made| > 0 ==> CreateMaterialDefined(state.graphicsState, params)
      modifies this
      ensures Valid()
      ensures old(state).apiState != WorldBlock ==> r == VerifyWorld(old(state).apiState)
      ensures old(state).apiState == WorldBlock ==>
        var mat := if |made| > 0 then Some(CreateMaterial(old(state).graphicsState, params)) else None;
        (r.Ok? <==> ShapePrims(old(state).graphicsState, old(state).curTransform, made, mat).Ok?)
      ensures r.Err? ==> state == old(state)
      ensures r.Ok? ==>
        var s := old(state);
        var mat := if |made| > 0 then Some(CreateMaterial(s.graphicsState, params)) else None;
        var made' := ShapePrims(s.graphicsState, s.curTransform, made, mat);
        var ro := s.renderOptions;
        made'.Ok? &&
        if ro.currentInstance.Some? then
          var n := ro.currentInstance.value;
          state == s.(renderOptions := ro.(instances := ro.instances[n := ro.instances[n] + made'.value.0]))
        else
          state == s.(renderOptions := ro.(primitives := ro.primitives + made'.value.0,
                                           lights := ro.lights + made'.value.1))
    {
      r := VerifyWorld(state.apiState);
      if r.Err? {
        return;
      }
      var mat := if |made| > 0 then Some(CreateMaterial(state.graphicsState, params)) else None;
      var built := ShapePrims(state.graphicsState, state.curTransform, made, mat);
      if built.Err? {
        return Err(built.error);
      }
      var (prims, areaLights) := built.value;
      var ro := state.renderOptions;
      if ro.currentInstance.Some? {
        var n := ro.currentInstance.value;
        state := state.(renderOptions := ro.(instances := ro.instances[n := ro.instances[n] + prims]));
      } else {
        state := state.(renderOptions := ro.(primitives := ro.primitives + prims, lights := ro.lights + areaLights));
      }
    }

    /** `reverse_orientation`: flip the current orientation flag. */
    method ReverseOrientation() returns (r: Outcome)
      requires Valid()
      modifies this
      ensures Valid()
      ensures r == VerifyWorld(old(state).apiState)
      ensures r.Err? ==> state == old(state)
      ensures r.Ok? ==> state == old(state).(graphicsState :=
        old(state).graphicsState.(reverseOrientation := !old(state).graphicsState.reverseOrientation))
    {
      r := VerifyWorld(state.apiState);
      if r.Err? {
        return;
      }
      state := state.(graphicsState := state.graphicsState.(reverseOrientation := !state.graphicsState.reverseOrientation));
    }

    /** The stack drain of `world_end`: pop a graphics state and a transform
      * per missing `AttributeEnd`, then the remaining transforms. */
    method DrainStacks()
      requires Valid()
      modifies this
      ensures Valid()
      ensures state == old(state).(pushedGraphicsStates := [], pushedTransforms := [])
    {
      while |state.pushedGraphicsStates| > 0
        invariant Valid()
        invariant state.pushedGraphicsStates <= old(state).pushedGraphicsStates
        invariant state == old(state).(pushedGraphicsStates := state.pushedGraphicsStates,
                                       pushedTransforms := state.pushedTransforms)
        decreases |state.pushedGraphicsStates|
      {
        var gs := state.pushedGraphicsStates;
        var ts := state.pushedTransforms;
        state := state.(pushedGraphicsStates := gs[..|gs| - 1],
                        pushedTransforms := if |ts| > 0 then ts[..|ts| - 1] else ts);
      }
      while |state.pushedTransforms| > 0
        invariant Valid()
        invariant state == old(state).(pushedGraphicsStates := [], pushedTransforms := state.pushedTransforms)
        decreases |state.pushedTransforms|
      {
        var ts := state.pushedTransforms;
        state := state.(pushedTransforms := ts[..|ts| - 1]);
      }
    }

    /** `world_end`: drain both stacks, then build the camera, integrator
      * and sampler. The scene built next panics (`unimplemented!()`) for a
      * "kdtree" accelerator, so only a call that gets that far must not name
      * one; rendering itself is outside this model. */
    method WorldEnd() returns (r: Outcome)
      requires Valid()
      requires state.apiState == WorldBlock && RenderSetup(state.renderOptions).Ok? ==>
        state.renderOptions.accelerator.name != "kdtree"
      modifies this
      ensures Valid()
      ensures old(state).apiState != WorldBlock ==> r == VerifyWorld(old(state).apiState) && state == old(state)
      ensures old(state).apiState == WorldBlock ==>
        r == RenderSetup(old(state).renderOptions) &&
        state == old(state).(pushedGraphicsStates := [], pushedTransforms := [])
    {
      r := VerifyWorld(state.apiState);
      if r.Err? {
        return;
      }
      DrainStacks();
      r := RenderSetup(state.renderOptions);
    }

    /** `object_begin`: `attribute_begin` first, then open a new, empty
      * instance; inside an instance this is an error, after the push. */
    method ObjectBegin(name: string) returns (r: Outcome)
      requires Valid()
      modifies this
      ensures Valid()
      ensures old(state).apiState != WorldBlock ==> r == VerifyWorld(old(state).apiState) && state == old(state)
      ensures old(state).apiState == WorldBlock ==>
        var s := old(state);
        var pushed := s.(pushedGraphicsStates := s.pushedGraphicsStates + [s.graphicsState],
                         pushedTransforms := s.pushedTransforms + [s.curTransform]);
        var ro := s.renderOptions;
        (r.Err? <==> ro.currentInstance.Some?) &&
        (r.Err? ==> state == pushed) &&
        (r.Ok? ==> state == pushed.(renderOptions := ro.(currentInstance := Some(name),
                                                        instances := ro.instances[name := []])))
    {
      r := AttributeBegin();
      if r.Err? {
        return;
      }
      if state.renderOptions.currentInstance.Some? {
        return Err("ObjectBegin called inside of instance definition");
      }
      var ro := state.renderOptions;
      state := state.(renderOptions := ro.(currentInstance := Some(name), instances := ro.instances[name := []]));
    }

    /** `object_end`: close the instance, then `attribute_end`. */
    method ObjectEnd() returns (r: Outcome)
      requires Valid()
      requires |state.pushedGraphicsStates| > 0 ==> |state.pushedTransforms| > 0
      modifies this
      ensures Valid()
      ensures old(state).apiState != WorldBlock || old(state).renderOptions.currentInstance.None? ==>
        r.Err? && state == old(state)
      ensures old(state).apiState == WorldBlock && old(state).renderOptions.currentInstance.Some? ==>
        var s := old(state);
        var closed := s.(renderOptions := s.renderOptions.(currentInstance := None));
        var gs, ts := s.pushedGraphicsStates, s.pushedTransforms;
        r.Ok? &&
        (|gs| == 0 ==> state == closed) &&
        (|gs| > 0 ==> state == closed.(graphicsState := gs[|gs| - 1], pushedGraphicsStates := gs[..|gs| - 1],
                                       curTransform := ts[|ts| - 1], pushedTransforms := ts[..|ts| - 1]))
    {
      r := VerifyWorld(state.apiState);
      if r.Err? {
        return;
      }
      if state.renderOptions.currentInstance.None? {
        return Err("ObjectEnd called outside of instance definition ");
      }
      state := state.(renderOptions := state.renderOptions.(currentInstance := None));
      r := AttributeEnd();
    }

    /** `object_instance`: outside an instance definition, a defined
      * instance is added to the scene under the current transform; an
      * instance of several primitives is first replaced by one accelerator
      * over them. */
    method ObjectInstance(name: string) returns (r: Outcome)
      requires Valid()
      requires (state.apiState == WorldBlock && state.renderOptions.currentInstance.None? &&
                name in state.renderOptions.instances && |state.renderOptions.instances[name]| > 1) ==>
               state.renderOptions.accelerator.name != "kdtree"
      modifies this
      ensures Valid()
      ensures r.Ok? <==> old(state).apiState == WorldBlock && old(state).renderOptions.currentInstance.None? &&
                         name in old(state).renderOptions.instances
      ensures r.Err? ==> state == old(state)
      ensures r.Ok? ==>
        var s := old(state);
        var ro := s.renderOptions;
        var inst := ro.instances[name];
        if |inst| == 0 then state == s
        else
          var inst' := if |inst| > 1 then [MakeAccelerator(ro.accelerator.name, inst)] else inst;
          state == s.(renderOptions := ro.(instances := ro.instances[name := inst'],
            primitives := ro.primitives + [TransformedPrimitive(inst'[0], s.curTransform)]))
    {
      r := VerifyWorld(state.apiState);
      if r.Err? {
        return;
      }
      var ro := state.renderOptions;
      if ro.currentInstance.Some? {
        return Err("ObjectInstance called inside of instance definition");
      }
      if name !in ro.instances {
        return Err("Unable to find instance named " + name);
      }
      var inst := ro.instances[name];
      if |inst| == 0 {
        return;
      }
      if |inst| > 1 {
        inst := [MakeAccelerator(ro.accelerator.name, inst)];
        ro := ro.(instances := ro.instances[name := inst]);
      }
      ro := ro.(primitives := ro.primitives + [TransformedPrimitive(inst[0], state.curTransform)]);
      state := state.(renderOptions := ro);
    }
  }

  /** The option record after one of the five option setters. */
  function WithOption(ro: RenderOptions, which: string, c: Choice): (r: RenderOptions)
    requires which in {"filter", "film", "sampler", "accelerator", "integrator"}
    ensures r.camera == ro.camera && r.cameraToWorld == ro.cameraToWorld && r.lights == ro.lights &&
            r.primitives == ro.primitives && r.instances == ro.instances && r.currentInstance == ro.currentInstance
    ensures which == "filter" ==> r == ro.(filter := c)
    ensures which == "film" ==> r == ro.(film := c)
    ensures which == "sampler" ==> r == ro.(sampler := c)
    ensures which == "accelerator" ==> r == ro.(accelerator := c)
    ensures which == "integrator" ==> r == ro.(integrator := c)
  {
    match which
    case "filter" => ro.(filter := c)
    case "film" => ro.(film := c)
    case "sampler" => ro.(sampler := c)
    case "accelerator" => ro.(accelerator := c)
    case "integrator" => ro.(integrator := c)
  }

  /** The graphics state after `texture`. */
  function WithTexture(gs: GraphicsState, name: string, typ: string, def: TextureDef): (r: GraphicsState)
    ensures r.namedMaterials == gs.namedMaterials
    ensures typ == "float" && def.kind in FLOAT_TEXTURES ==> r.floatTextures == gs.floatTextures[name := def]
    ensures !(typ == "float" && def.kind in FLOAT_TEXTURES) ==> r.floatTextures == gs.floatTextures
    ensures (typ == "color" || typ == "spectrum") && def.kind in SPECTRUM_TEXTURES ==>
      r.spectrumTextures == gs.spectrumTextures[name := def]
    ensures !((typ == "color" || typ == "spectrum") && def.kind in SPECTRUM_TEXTURES) ==>
      r.spectrumTextures == gs.spectrumTextures
  {
    if typ == "float" then
      (if def.kind in FLOAT_TEXTURES then gs.(floatTextures := gs.floatTextures[name := def]) else gs)
    else if typ == "color" || typ == "spectrum" then
      (if def.kind in SPECTRUM_TEXTURES then gs.(spectrumTextures := gs.spectrumTextures[name := def]) else gs)
    else gs
  }
}
