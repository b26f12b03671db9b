/**
 * The interaction rules of the reading room in src/main.js: which loaded
 * meshes get a baked texture and which become interactables, the hover
 * easing done on every frame, the click handlers, and the pointer mapping.
 *
 * Scene objects are named by a NodeId standing for object identity. The
 * raycaster is an oracle: each frame receives its ordered list of hits.
 */
module Room {
  import opened Wrappers

  type NodeId = nat

  datatype Vec3 = Vec3(x: real, y: real, z: real)

  /** Position and Euler rotation of a mesh. */
  datatype Pose = Pose(position: Vec3, rotation: Vec3)

  /** A node of the loaded scene, as gltf.scene.traverse visits it. */
  datatype SceneNode = SceneNode(id: NodeId, name: string, isMesh: bool, pose: Pose)

  /** One raycast intersection: the object hit and its name. */
  datatype Hit = Hit(id: NodeId, name: string)

  const InteractiveNames: seq<string> :=
    ["book1", "book2", "book3", "book4", "book5", "book6", "book53", "globe", "mug", "daisy"]

  const PopupInfo: map<string, string> := map[
    "book1" := "This is book 1, full of adventures!",
    "book2" := "Book 2: mystery awaits.",
    "book3" := "Book 3: a classic tale.",
    "book4" := "Book 4: fun stories inside.",
    "book5" := "Book 5: secrets revealed.",
    "book6" := "Book 6: learn something new!",
    "book53" := "Book 53: the hidden gem.",
    "globe" := "A tiny globe of the world!",
    "mug" := "A cute mug for your coffee.",
    "daisy" := "A cheerful daisy plant."
  ]

  /** Mesh name to baked texture path. */
  const BakedTextureMap: map<string, string> := map[
    "woodFloor" := "/images/floor.png",
    "room" := "/images/walls4k.png",
    "Shelf" := "/images/shelf.png",
    "rug" := "/images/rug4k.png",
    "bookStack" := "/images/staticBooks.png",
    "chair" := "/images/chair.png",
    "smallFurniture" := "/images/sideTable.png",
    "topRoom" := "/images/topRoom.png",
    "smallLanterninside" := "/images/lights.png",
    "plants" := "/images/plants.png",
    "globe" := "/images/diffuse.png",
    "Chihuahua" := "/images/chis.png",
    "milk" := "/images/milk.png",
    "cat" := "/images/tekstura_kota.png",
    "mug" := "/images/mug.png",
    "katana" := "/images/katana.png",
    "grounf" := "/images/ground4k.png",
    "daisy" := "/images/daisy.png",
    "windowOne" := "images/window1.png",
    "windowTwo" := "images/window2.png",
    "book1" := "/images/book1.png",
    "book2" := "/images/book2.png",
    "book3" := "/images/book8.png",
    "book4" := "/images/book4.png",
    "book5" := "/images/book5.png",
    "book6" := "/images/book6.png",
    "book53" := "/images/book7.png",
    "mountainDew" := "/images/dew.png",
    "pot" := "/images/daisyPot.png",
    "dinky" := "/images/dinks.png"
  ]

  /** The one interactable whose click also spams sheep, and how many. */
  const SheepBook := "book3"
  const SheepPerSpam := 20

  /** How far a hovered interactable rises, and the per-frame blend factor. */
  const HoverLift: real := 0.3
  const EaseFactor: real := 0.1

  /* ------------------------------ loading -------------------------------- */

  predicate IsInteractive(n: SceneNode) {
    n.isMesh && n.name in InteractiveNames
  }

  predicate GetsBakedTexture(n: SceneNode) {
    n.isMesh && n.name in BakedTextureMap
  }

  /**
   * The interactables map after traverse visits `nodes` in order: every
   * interactive mesh is set with its pose at that moment (a later visit of
   * the same object overwrites, as Map.set does).
   */
  function Registered(m: map<NodeId, Pose>, nodes: seq<SceneNode>): map<NodeId, Pose> {
    if nodes == [] then m
    else
      var n := nodes[|nodes| - 1];
      var before := Registered(m, nodes[..|nodes| - 1]);
      if IsInteractive(n) then before[n.id := n.pose] else before
  }

  /** The baked texture given to each mesh after traverse visits `nodes`. */
  function Baked(m: map<NodeId, string>, nodes: seq<SceneNode>): map<NodeId, string> {
    if nodes == [] then m
    else
      var n := nodes[|nodes| - 1];
      var before := Baked(m, nodes[..|nodes| - 1]);
      if GetsBakedTexture(n) then before[n.id := BakedTextureMap[n.name]] else before
  }

  /**
   * An object is registered if and only if it was registered before or some
   * visit of it is an interactive mesh; objects no such visit touches keep
   * their entry.
   */
  lemma {:induction false} RegisteredIff(m: map<NodeId, Pose>, nodes: seq<SceneNode>, id: NodeId)
    ensures id in Registered(m, nodes) <==>
      id in m || exists i :: 0 <= i < |nodes| && IsInteractive(nodes[i]) && nodes[i].id == id
    ensures (forall i :: 0 <= i < |nodes| && nodes[i].id == id ==> !IsInteractive(nodes[i])) && id in m ==>
      Registered(m, nodes)[id] == m[id]
  {
    if nodes != [] {
      var prefix := nodes[..|nodes| - 1];
      RegisteredIff(m, prefix, id);
      if exists i :: 0 <= i < |prefix| && IsInteractive(prefix[i]) && prefix[i].id == id {
        var i :| 0 <= i < |prefix| && IsInteractive(prefix[i]) && prefix[i].id == id;
        assert nodes[i] == prefix[i];
      }
      if exists i :: 0 <= i < |nodes| && IsInteractive(nodes[i]) && nodes[i].id == id {
        var i :| 0 <= i < |nodes| && IsInteractive(nodes[i]) && nodes[i].id == id;
        if i < |prefix| {
          assert prefix[i] == nodes[i];
        }
      }
    }
  }

  /** The base pose of an interactive mesh is its pose when it was (last) visited. */
  lemma {:induction false} RegisteredPose(m: map<NodeId, Pose>, nodes: seq<SceneNode>, i: nat)
    requires i < |nodes| && IsInteractive(nodes[i])
    requires forall j :: i < j < |nodes| ==> nodes[j].id != nodes[i].id
    ensures nodes[i].id in Registered(m, nodes)
    ensures Registered(m, nodes)[nodes[i].id] == nodes[i].pose
  {
    if i < |nodes| - 1 {
      var prefix := nodes[..|nodes| - 1];
      assert prefix[i] == nodes[i];
      RegisteredPose(m, prefix, i);
    }
  }

  /**
   * A mesh gets a baked texture if and only if its name is a key of the
   * texture table, and then it is that name's texture; nodes that are not
   * such meshes keep what they had.
   */
  lemma {:induction false} BakedIff(m: map<NodeId, string>, nodes: seq<SceneNode>, id: NodeId)
    ensures id in Baked(m, nodes) <==>
      id in m || exists i :: 0 <= i < |nodes| && GetsBakedTexture(nodes[i]) && nodes[i].id == id
    ensures (forall i :: 0 <= i < |nodes| && nodes[i].id == id ==> !GetsBakedTexture(nodes[i])) && id in m ==>
      Baked(m, nodes)[id] == m[id]
    ensures forall i :: 0 <= i < |nodes| && nodes[i].id == id && GetsBakedTexture(nodes[i]) ==>
      Baked(m, nodes)[id] in BakedTextureMap.Values
  {
    if nodes != [] {
      var prefix := nodes[..|nodes| - 1];
      BakedIff(m, prefix, id);
      if exists i :: 0 <= i < |prefix| && GetsBakedTexture(prefix[i]) && prefix[i].id == id {
        var i :| 0 <= i < |prefix| && GetsBakedTexture(prefix[i]) && prefix[i].id == id;
        assert nodes[i] == prefix[i];
      }
      if exists i :: 0 <= i < |nodes| && GetsBakedTexture(nodes[i]) && nodes[i].id == id {
        var i :| 0 <= i < |nodes| && GetsBakedTexture(nodes[i]) && nodes[i].id == id;
        if i < |prefix| {
          assert prefix[i] == nodes[i];
        }
      }
    }
  }

  /**
   * A mesh that gets a baked texture has, after the traversal, the texture
   * its own name maps to, provided no later visit touches the same object.
   */
  lemma {:induction false} BakedTexture(m: map<NodeId, string>, nodes: seq<SceneNode>, i: nat)
    requires i < |nodes| && GetsBakedTexture(nodes[i])
    requires forall j :: i < j < |nodes| ==> nodes[j].id != nodes[i].id
    ensures nodes[i].id in Baked(m, nodes)
    ensures Baked(m, nodes)[nodes[i].id] == BakedTextureMap[nodes[i].name]
  {
    if i < |nodes| - 1 {
      var prefix := nodes[..|nodes| - 1];
      assert prefix[i] == nodes[i];
      BakedTexture(m, prefix, i);
    }
  }

  /** Registration adds keys and never drops one. */
  lemma {:induction false} RegisteredGrows(m: map<NodeId, Pose>, m': map<NodeId, Pose>, nodes: seq<SceneNode>)
    requires m.Keys == m'.Keys
    ensures Registered(m, nodes).Keys == Registered(m', nodes).Keys
    ensures m.Keys <= Registered(m, nodes).Keys
  {
    if nodes != [] {
      RegisteredGrows(m, m', nodes[..|nodes| - 1]);
    }
  }

  /* ----------------------------- hover easing ----------------------------- */

  /** THREE.MathUtils.lerp. */
  function Lerp(x: real, y: real, t: real): real {
    (1.0 - t) * x + t * y
  }

  /** One frame of easing toward `target`. */
  function Ease(current: real, target: real): real {
    Lerp(current, target, EaseFactor)
  }

  /** The hover flag of a mesh: it is the object the first hit names. */
  predicate IsHovered(hovered: Option<Hit>, id: NodeId) {
    hovered.Some? && hovered.value.id == id
  }

  /**
   * One frame of the tick's forEach for one interactable: position.y eases
   * toward the base height, raised by HoverLift when hovered; rotation.y
   * eases toward the base rotation (the source adds 0 whether or not hovered).
   */
  function EasePose(current: Pose, base: Pose, hover: bool): Pose {
    var lift := if hover then HoverLift else 0.0;
    Pose(
      current.position.(y := Ease(current.position.y, base.position.y + lift)),
      current.rotation.(y := Ease(current.rotation.y, base.rotation.y + 0.0)))
  }

  /** The current poses after one frame of the forEach over every interactable. */
  function EasedPoses(poses: map<NodeId, Pose>, bases: map<NodeId, Pose>, hovered: Option<Hit>): map<NodeId, Pose> {
    map id | id in poses :: if id in bases then EasePose(poses[id], bases[id], IsHovered(hovered, id)) else poses[id]
  }

  /** The height an interactable eases toward. */
  function TargetY(base: Pose, hover: bool): real {
    base.position.y + (if hover then HoverLift else 0.0)
  }

  /**
   * Easing moves a value a tenth of the way to its target: the new value lies
   * between the old one and the target, its distance to the target shrinks to
   * nine tenths, and a value already at its target stays put.
   */
  lemma EaseApproaches(current: real, target: real)
    ensures current <= target ==> current <= Ease(current, target) <= target
    ensures target <= current ==> target <= Ease(current, target) <= current
    ensures Ease(current, target) - target == 0.9 * (current - target)
    ensures current == target ==> Ease(current, target) == current
  {
  }

  /**
   * One frame on one interactable: only the heights move, the height eases
   * toward its hover-dependent target, and the rotation's target does not
   * depend on hovering.
   */
  lemma HoverEasing(poses: map<NodeId, Pose>, bases: map<NodeId, Pose>, hovered: Option<Hit>, id: NodeId)
    requires id in poses && id in bases
    ensures var r := EasedPoses(poses, bases, hovered)[id];
      var old_ := poses[id];
      var target := TargetY(bases[id], IsHovered(hovered, id));
      && r.position.x == old_.position.x && r.position.z == old_.position.z
      && r.rotation.x == old_.rotation.x && r.rotation.z == old_.rotation.z
      && r.position.y - target == 0.9 * (old_.position.y - target)
      && (old_.position.y <= target ==> old_.position.y <= r.position.y <= target)
      && (target <= old_.position.y ==> target <= r.position.y <= old_.position.y)
      && r.rotation.y - bases[id].rotation.y == 0.9 * (old_.rotation.y - bases[id].rotation.y)
      && r.rotation == EasedPoses(poses, bases, None)[id].rotation
  {
    EaseApproaches(poses[id].position.y, TargetY(bases[id], IsHovered(hovered, id)));
  }

  /** Keeping an interactable hovered (or not) for n frames. */
  function EaseFrames(current: real, target: real, n: nat): real {
    if n == 0 then current else Ease(EaseFrames(current, target, n - 1), target)
  }

  function NineTenthsPow(n: nat): real {
    if n == 0 then 1.0 else 0.9 * NineTenthsPow(n - 1)
  }

  /** After n frames toward one target, the remaining distance is 0.9^n of the start's. */
  lemma {:induction false} EaseFramesDistance(current: real, target: real, n: nat)
    ensures EaseFrames(current, target, n) - target == NineTenthsPow(n) * (current - target)
    ensures 0.0 < NineTenthsPow(n) <= 1.0
  {
    if n > 0 {
      EaseFramesDistance(current, target, n - 1);
      var prev := EaseFrames(current, target, n - 1);
      EaseApproaches(prev, target);
      calc {
        EaseFrames(current, target, n) - target;
        0.9 * (prev - target);
        0.9 * (NineTenthsPow(n - 1) * (current - target));
        (0.9 * NineTenthsPow(n - 1)) * (current - target);
      }
    }
  }

  /* ------------------------------- clicks ------------------------------- */

  /**
   * The popup text for a clicked name: its entry in the popup table when that
   * entry is non-empty, and otherwise "You clicked: " followed by the name.
   */
  function Caption(name: string): string {
    if name in PopupInfo && PopupInfo[name] != "" then PopupInfo[name] else "You clicked: " + name
  }

  /** How many sheep a click on `name` spawns. */
  function SheepFor(name: string): nat {
    if name == SheepBook then SheepPerSpam else 0
  }

  /** Every interactive name has its own caption, so the fallback never fires for them. */
  lemma CaptionsCoverInteractives()
    ensures forall k :: 0 <= k < |InteractiveNames| ==>
      InteractiveNames[k] in PopupInfo && Caption(InteractiveNames[k]) == PopupInfo[InteractiveNames[k]]
    ensures forall name :: name !in PopupInfo ==> Caption(name) == "You clicked: " + name
  {
  }

  /** Only book3 spawns sheep, and then exactly twenty. */
  lemma SheepOnlyForBook3(name: string)
    ensures SheepFor(name) > 0 <==> name == "book3"
    ensures name == "book3" ==> SheepFor(name) == 20
  {
  }

  /* --------------------------- pointer mapping --------------------------- */

  /** The mousemove handler: client pixels to normalised device coordinates. */
  function PointerToNdc(clientX: real, clientY: real, width: real, height: real): (real, real)
    requires width > 0.0 && height > 0.0
  {
    ((clientX / width) * 2.0 - 1.0, -(clientY / height) * 2.0 + 1.0)
  }

  /** The inverse mapping, from device coordinates back to client pixels. */
  function NdcToPointer(ndc: (real, real), width: real, height: real): (real, real) {
    ((ndc.0 + 1.0) / 2.0 * width, (1.0 - ndc.1) / 2.0 * height)
  }

  /** The ratio of a coordinate to the window size. */
  lemma RatioFacts(c: real, size: real)
    requires size > 0.0
    ensures (c / size) * size == c
    ensures 0.0 <= c <= size ==> 0.0 <= c / size <= 1.0
    ensures c == 0.0 ==> c / size == 0.0
    ensures c == size ==> c / size == 1.0
  {
    var q := c / size;
    if 0.0 <= c <= size && q > 1.0 {
      assert q * size > 1.0 * size;
    }
  }

  /**
   * A pointer inside the window maps into [-1, 1] x [-1, 1]; the left edge
   * goes to x = -1, the top edge to y = +1; and the mapping can be undone.
   */
  lemma NdcOnScreen(clientX: real, clientY: real, width: real, height: real)
    requires width > 0.0 && height > 0.0
    ensures var ndc := PointerToNdc(clientX, clientY, width, height);
      (0.0 <= clientX <= width ==> -1.0 <= ndc.0 <= 1.0) &&
      (0.0 <= clientY <= height ==> -1.0 <= ndc.1 <= 1.0) &&
      (clientX == 0.0 ==> ndc.0 == -1.0) && (clientX == width ==> ndc.0 == 1.0) &&
      (clientY == 0.0 ==> ndc.1 == 1.0) && (clientY == height ==> ndc.1 == -1.0)
    ensures NdcToPointer(PointerToNdc(clientX, clientY, width, height), width, height) == (clientX, clientY)
  {
    RatioFacts(clientX, width);
    RatioFacts(clientY, height);
    var qx := clientX / width;
    var qy := clientY / height;
    var ndc := PointerToNdc(clientX, clientY, width, height);
    assert ndc == (qx * 2.0 - 1.0, -qy * 2.0 + 1.0);
    var ax, ay := (ndc.0 + 1.0) / 2.0, (1.0 - ndc.1) / 2.0;
    assert ax == qx && ay == qy;
    assert ax * width == clientX && ay * height == clientY;
    assert NdcToPointer(ndc, width, height).0 == ax * width;
    assert NdcToPointer(ndc, width, height).1 == ay * height;
    assert NdcToPointer(ndc, width, height) == (clientX, clientY);
  }

  /* --------------------------- the page state ---------------------------- */

  /** The module-level state of main.js that the interaction code updates. */
  class RoomPage {
    var width: real
    var height: real
    /** The `mouse` vector, in normalised device coordinates. */
    var mouse: (real, real)
    /** Meshes given a baked material, with its texture path. */
    var materials: map<NodeId, string>
    /** The `interactables` map: base pose of each registered mesh. */
    var interactables: map<NodeId, Pose>
    /** The current pose of each registered mesh. */
    var poses: map<NodeId, Pose>
    var hovered: Option<Hit>
    /** Whether the page cursor is 'pointer' (else 'default'). */
    var pointerCursor: bool
    var popupText: string
    var popupVisible: bool
    /** Sheep emoji spawned so far. */
    var sheep: nat

    ghost predicate Valid()
      reads this
    {
      width > 0.0 && height > 0.0 && poses.Keys == interactables.Keys
    }

    /** The page before the model loads: nothing registered, nothing hovered. */
    constructor (width: real, height: real)
      requires width > 0.0 && height > 0.0
      ensures Valid()
      ensures this.width == width && this.height == height && mouse == (0.0, 0.0)
      ensures materials == map[] && interactables == map[] && poses == map[]
      ensures hovered == None && !pointerCursor
      ensures popupText == "" && !popupVisible && sheep == 0
    {
      this.width, this.height := width, height;
      mouse := (0.0, 0.0);
      materials, interactables, poses := map[], map[], map[];
      hovered, pointerCursor := None, false;
      popupText, popupVisible, sheep := "", false, 0;
    }

    /** The mousemove listener. */
    method OnMouseMove(clientX: real, clientY: real)
      requires Valid()
      modifies this
      ensures Valid()
      ensures mouse == PointerToNdc(clientX, clientY, width, height)
      ensures width == old(width) && height == old(height) && materials == old(materials)
      ensures interactables == old(interactables) && poses == old(poses) && hovered == old(hovered)
      ensures pointerCursor == old(pointerCursor) && popupText == old(popupText)
      ensures popupVisible == old(popupVisible) && sheep == old(sheep)
    {
      mouse := ((clientX / width) * 2.0 - 1.0, -(clientY / height) * 2.0 + 1.0);
    }

    /** The gltf load callback: the traverse over every node of the scene. */
    method LoadModel(nodes: seq<SceneNode>)
      requires Valid()
      modifies this
      ensures Valid()
      ensures materials == Baked(old(materials), nodes)
      ensures interactables == Registered(old(interactables), nodes)
      ensures poses == Registered(old(poses), nodes)
      ensures width == old(width) && height == old(height) && mouse == old(mouse)
      ensures hovered == old(hovered) && pointerCursor == old(pointerCursor)
      ensures popupText == old(popupText) && popupVisible == old(popupVisible) && sheep == old(sheep)
    {
      var i := 0;
      while i < |nodes|
        invariant 0 <= i <= |nodes|
        invariant materials == Baked(old(materials), nodes[..i])
        invariant interactables == Registered(old(interactables), nodes[..i])
        invariant poses == Registered(old(poses), nodes[..i])
        invariant width == old(width) && height == old(height) && mouse == old(mouse)
        invariant hovered == old(hovered) && pointerCursor == old(pointerCursor)
        invariant popupText == old(popupText) && popupVisible == old(popupVisible) && sheep == old(sheep)
      {
        var child := nodes[i];
        assert nodes[..i + 1][..i] == nodes[..i];
        if child.isMesh {
          if child.name in BakedTextureMap {
            materials := materials[child.id := BakedTextureMap[child.name]];
          }
          if child.name in InteractiveNames {
            interactables := interactables[child.id := child.pose];
            poses := poses[child.id := child.pose];
          }
        }
        i := i + 1;
      }
      assert nodes[..|nodes|] == nodes;
      RegisteredGrows(old(interactables), old(poses), nodes);
    }

    /** One frame of tick: the hover pick, the easing forEach, the cursor. */
    method Tick(hits: seq<Hit>)
      requires Valid()
      modifies this
      ensures Valid()
      ensures hovered == (if |hits| > 0 then Some(hits[0]) else None)
      ensures pointerCursor <==> hovered.Some?
      ensures poses == EasedPoses(old(poses), interactables, hovered)
      ensures (forall k :: 0 <= k < |hits| ==> hits[k].id in interactables) ==>
        (hovered.Some? ==> hovered.value.id in interactables)
      ensures width == old(width) && height == old(height) && mouse == old(mouse)
      ensures materials == old(materials) && interactables == old(interactables)
      ensures popupText == old(popupText) && popupVisible == old(popupVisible) && sheep == old(sheep)
    {
      hovered := if |hits| > 0 then Some(hits[0]) else None;
      var todo := interactables.Keys;
      while todo != {}
        invariant todo <= interactables.Keys
        invariant poses.Keys == old(poses).Keys == interactables.Keys
        invariant hovered == (if |hits| > 0 then Some(hits[0]) else None)
        invariant forall id :: id in poses && id !in todo ==>
          poses[id] == EasePose(old(poses)[id], interactables[id], IsHovered(hovered, id))
        invariant forall id :: id in todo ==> poses[id] == old(poses)[id]
        invariant width == old(width) && height == old(height) && mouse == old(mouse)
        invariant materials == old(materials) && interactables == old(interactables)
        invariant popupText == old(popupText) && popupVisible == old(popupVisible) && sheep == old(sheep)
        decreases todo
      {
        var mesh :| mesh in todo;
        var isHover := hovered.Some? && hovered.value.id == mesh;
        poses := poses[mesh := EasePose(poses[mesh], interactables[mesh], isHover)];
        todo := todo - {mesh};
      }
      pointerCursor := hovered.Some?;
    }

    /** The first click listener: show the hovered object's caption. */
    method ShowCaption()
      modifies this
      ensures hovered.None? ==> popupText == old(popupText) && popupVisible == old(popupVisible)
      ensures hovered.Some? ==> popupText == Caption(hovered.value.name) && popupVisible
      ensures width == old(width) && height == old(height) && mouse == old(mouse)
      ensures materials == old(materials) && interactables == old(interactables) && poses == old(poses)
      ensures hovered == old(hovered) && pointerCursor == old(pointerCursor) && sheep == old(sheep)
    {
      if hovered.None? {
        return;
      }
      popupText := Caption(hovered.value.name);
      popupVisible := true;
    }

    /** spamSheep: twenty sheep, one per loop turn. */
    method SpamSheep()
      modifies this
      ensures sheep == old(sheep) + SheepPerSpam
      ensures width == old(width) && height == old(height) && mouse == old(mouse)
      ensures materials == old(materials) && interactables == old(interactables) && poses == old(poses)
      ensures hovered == old(hovered) && pointerCursor == old(pointerCursor)
      ensures popupText == old(popupText) && popupVisible == old(popupVisible)
    {
      for i := 0 to SheepPerSpam
        invariant sheep == old(sheep) + i
        invariant width == old(width) && height == old(height) && mouse == old(mouse)
        invariant materials == old(materials) && interactables == old(interactables) && poses == old(poses)
        invariant hovered == old(hovered) && pointerCursor == old(pointerCursor)
        invariant popupText == old(popupText) && popupVisible == old(popupVisible)
      {
        sheep := sheep + 1;
      }
    }

    /** The second click listener: the caption again, and sheep for book3. */
    method ShowCaptionAndSheep()
      modifies this
      ensures hovered.None? ==> popupText == old(popupText) && popupVisible == old(popupVisible)
      ensures hovered.Some? ==> popupText == Caption(hovered.value.name) && popupVisible
      ensures sheep == old(sheep) + (if hovered.Some? then SheepFor(hovered.value.name) else 0)
      ensures width == old(width) && height == old(height) && mouse == old(mouse)
      ensures materials == old(materials) && interactables == old(interactables) && poses == old(poses)
      ensures hovered == old(hovered) && pointerCursor == old(pointerCursor)
    {
      if hovered.None? {
        return;
      }
      popupText := Caption(hovered.value.name);
      popupVisible := true;
      if hovered.value.name == SheepBook {
        SpamSheep();
      }
    }

    /**
     * A click runs both listeners in the order they were added. With nothing
     * hovered nothing changes; otherwise the popup shows the caption, and only
     * book3 adds sheep, twenty of them.
     */
    method Click()
      modifies this
      ensures hovered.None? ==>
        popupText == old(popupText) && popupVisible == old(popupVisible) && sheep == old(sheep)
      ensures hovered.Some? ==>
        popupText == Caption(hovered.value.name) && popupVisible &&
        sheep == old(sheep) + SheepFor(hovered.value.name)
      ensures width == old(width) && height == old(height) && mouse == old(mouse)
      ensures materials == old(materials) && interactables == old(interactables) && poses == old(poses)
      ensures hovered == old(hovered) && pointerCursor == old(pointerCursor)
    {
      ShowCaption();
      ShowCaptionAndSheep();
    }

    /** The popup's Close button. */
    method ClosePopup()
      modifies this
      ensures !popupVisible && popupText == old(popupText) && sheep == old(sheep)
      ensures width == old(width) && height == old(height) && mouse == old(mouse)
      ensures materials == old(materials) && interactables == old(interactables) && poses == old(poses)
      ensures hovered == old(hovered) && pointerCursor == old(pointerCursor)
    {
      popupVisible := false;
    }

    /**
     * A click on Close: the button's listener hides the popup, then the click
     * bubbles up to the window and both window listeners run. With something
     * hovered the popup therefore opens again, and book3 adds twenty more
     * sheep; only with nothing hovered does it stay closed.
     */
    method ClickClose()
      modifies this
      ensures hovered.None? ==>
        !popupVisible && popupText == old(popupText) && sheep == old(sheep)
      ensures hovered.Some? ==>
        popupVisible && popupText == Caption(hovered.value.name) &&
        sheep == old(sheep) + SheepFor(hovered.value.name)
      ensures width == old(width) && height == old(height) && mouse == old(mouse)
      ensures materials == old(materials) && interactables == old(interactables) && poses == old(poses)
      ensures hovered == old(hovered) && pointerCursor == old(pointerCursor)
    {
      ClosePopup();
      Click();
    }
  }
}
