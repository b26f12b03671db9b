# Reading room: a Dafny model

This project models the interactive logic of a browser 3D "reading room"
scene. The scene has three parts:

- **Flappy book** (`flappy.dfy`, module `Flappy`). A small Flappy-Bird game
  hidden behind a book. It holds a bird with a velocity and a height, and a
  list of pipes that scroll left. The score goes up when a pipe leaves the
  screen. The game ends when the bird leaves the vertical band or touches a
  pipe. There are also start, stop, flap and book-click handlers and a game
  over overlay. The closure of `createFlappyBook` is the class
  `FlappyBook`. Each of its methods is proved to move the state exactly as a
  pure function `AfterX` of the old state does, and the game's properties
  are lemmas about those functions.
- **Room page** (`room.dfy`, module `Room`). The page script does the
  following:
  - It gives baked textures to the loaded meshes and registers the
    interactive ones with their base pose.
  - It maps the mouse to normalised device coordinates.
  - On every frame it picks the hovered object from the raycast hits and
    eases each interactable toward its base pose, lifted by 0.3 when
    hovered.
  - On click it shows a caption and, for `book3`, spams twenty sheep.
  - It closes the popup.
- **Globe slideshow** (`globe.dfy`, module `Globe`). A popup row that shows
  eight places one after another, wrapping around, until `stopGlobe` turns
  it off.

Units and representation:

- Flappy positions and velocity are integers in thousandths of a scene unit:
  gravity 0.002 is `2`, flap power 0.04 is `40`, pipe speed 0.015 is `15`,
  and the band ±0.7 is ±700. Times are integers in milliseconds.
- Easing and the pointer mapping use `real`.
- The raycaster is an oracle: each frame receives its ordered list of hits.
- `Math.random()` is replaced by parameters. In the game it is the gap
  height `gapY`, which lies in `[-250, 250)`. The sheep's sizes and
  positions are not modelled.

Notes on how the program behaves:

- **Score per pipe.** The score grows by one per pipe mesh that leaves the
  screen. A pair is two meshes, so a passed pair scores 2.
- **Restart after game over.** `gameOver` clears `running`, so
  `startFlappy` may be called again directly from the game over overlay.
  `StartIsCanonical` shows it then gives the same fresh state as any other
  start.
- **A START click also flaps.** The START button's click bubbles up to the
  window, where `startFlappy` has just attached the flap listener. A game
  started by clicking START therefore begins with velocity 40, not at rest
  (`StartClickFlaps`, `FlappyBook.ClickStart`).
- **When the bird leaves the band.**
  - A game started with velocity 0 and never flapped (`startFlappy` called
    directly) is at `-n(n+1)` thousandths after `n` frames. The first frame
    strictly below -700 is frame 26, at -702 (`FreeFall`, `FreeFallEnds`).
  - A game launched by a START click and never flapped again is at
    `n(39 - n)`. It leaves the band at frame 53, at -742 (`LaunchedFall`,
    `LaunchedFallEnds`).
- **Two click listeners.** The page script has two window click listeners
  and no orchestrator. Both show the caption, and the second also spams
  sheep for `book3` (`Click`).
- **Closing does not always close.** The Close button's click also bubbles
  up to both window listeners. While something is hovered, the popup opens
  again at once, and `book3` adds twenty more sheep (`RoomPage.ClickClose`).

## Model

| member | source | states |
|---|---|---|
| Flappy.SweepConserves | src/flappyBook.js:122-137 | one pass of the pipe loop never creates or loses a pipe: the kept pipes plus the removed count equal the pipes before |
| Flappy.SweepAppend | src/flappyBook.js:122-137 | the loop over a list visits its tail first: a pass over `a + b` is a pass over `b` and then, unless `b` hit, a pass over `a` |
| Flappy.SweepHitIff | src/flappyBook.js:126-130 | a pass ends in a collision if and only if some pipe, once moved, is within 120 horizontally and 300 vertically of the bird |
| Flappy.SweepNoHit | src/flappyBook.js:122-137 | with no collision every pipe moves, the pipes left of -1500 are removed and counted, and the rest keep their order |
| Flappy.SweepHitAt | src/flappyBook.js:122-137 | when pipe j is the highest-index pipe to collide, the pipes after j have moved and been filtered, pipe j has moved, and the pipes before j are untouched |
| Flappy.SurvivorsPartition | src/flappyBook.js:132-136 | the surviving pipes and the removed pipes together account for every moved pipe |
| Flappy.SweepInRange | src/flappyBook.js:122-137 | pipes within [-1500, 1200] before a pass are within it after |
| Flappy.SweepFarAhead | src/flappyBook.js:122-137 | pipes at or right of a bound clear of the bird never collide and none is removed: the pass keeps every pipe, in order, each moved exactly 15 left |
| Flappy.InitialInv | src/flappyBook.js:36-48 | the created game is stopped, has no pipes and a zero score, and satisfies the invariant |
| Flappy.FlapOverwrites | src/flappyBook.js:82-99 | a flap sets the velocity to 40 while running and does nothing otherwise, so flapping twice equals flapping once; only the Space key flaps |
| Flappy.StartIsCanonical | src/flappyBook.js:183-191 | starting while running changes nothing, and any other start gives the same fresh running state |
| Flappy.StopRestoresInitial | src/flappyBook.js:193-201 | stopping from any state gives the state the game was created in, and a start after it is fresh |
| Flappy.GameOverFreezes | src/flappyBook.js:171-180 | after game over the overlay shows the score, pipes and score are kept, and neither a frame nor a flap changes anything |
| Flappy.AnimatePhysics | src/flappyBook.js:102-107 | a frame does nothing unless running; otherwise velocity drops by 2 and the height changes by the new velocity |
| Flappy.AnimateOutOfBounds | src/flappyBook.js:109-115 | a height strictly outside ±700 ends the game before any spawn or move, keeping pipes, score and spawn time; a bird landing exactly on ±700 keeps running unless a pipe collides |
| Flappy.SpawnedPairSafe | src/flappyBook.js:143-157 | a new pair at x = 1200 neither collides nor is removed on its first move |
| Flappy.SweepSpawnedPair | src/flappyBook.js:143-157 | the first pass over a new pair keeps both pipes, moved once, with no hit and no removal |
| Flappy.AnimateEndsIff | src/flappyBook.js:109-130 | a running frame ends the game if and only if the bird leaves the band or a moved existing pipe collides with it |
| Flappy.AnimateSpawns | src/flappyBook.js:117-120 | strictly more than 1800 ms after the last spawn, the frame records the time and the pipe list ends with the new pair at x = 1185; otherwise the spawn time stays; either way pipes plus score grow by the number of meshes spawned |
| Flappy.AnimateNoCollision | src/flappyBook.js:122-137 | without a collision the game keeps running, the pipes are the moved survivors, and the score grows by the number removed |
| Flappy.AnimateCollision | src/flappyBook.js:122-137 | with the last collision at pipe j, the game ends with the overlay showing the score, the later pipes are moved and filtered, and the earlier ones are untouched |
| Flappy.AnimateScoreMonotone | src/flappyBook.js:135 | a frame never lowers the score |
| Flappy.AnimateKeepsInv | src/flappyBook.js:102-140 | a frame keeps the invariant: pipes stay in [-1500, 1200], a running game is in band with input listening and the game group visible, and score plus pipe count stays even |
| Flappy.OperationsKeepInv | src/flappyBook.js:82-208 | flap, key press, start, stop, book click and game over keep the invariant |
| Flappy.FarAheadStep | src/flappyBook.js:117-137 | a running in-band frame whose pipes are all far to the right keeps running and scores nothing; every pipe, the new pair included, moves exactly 15 left |
| Flappy.FreeFall | src/flappyBook.js:102-137 | free fall from a fresh start: after n frames the velocity is -2n, the height is -n(n+1), pipes are at or right of 1200 - 15n, and the game runs exactly while n <= 25 |
| Flappy.FreeFallEnds | src/flappyBook.js:109-115 | from frame 26 on, a free fall is over with the bird at -702 |
| Flappy.StartClickFlaps | src/flappyBook.js:183-191 | a START click while stopped launches the fresh game with velocity 40, because the flap listener it attaches also hears the click; while running it only flaps; the invariant is kept |
| Flappy.LaunchedFall | src/flappyBook.js:102-137 | a game launched by a START click, never flapped again: after n frames the velocity is 40 - 2n, the height is n(39 - n), pipes are at or right of 1200 - 15n, and the game runs exactly while n <= 52 |
| Flappy.LaunchedFallEnds | src/flappyBook.js:109-115 | from frame 53 on, such a game is over with the bird at -742 |
| Flappy.FlappyBook.constructor | src/flappyBook.js:36-48 | the new game is the initial state: stopped, at rest, no pipes, score 0, hidden |
| Flappy.FlappyBook.Flap | src/flappyBook.js:82-85 | the state afterwards is the flap of the state before |
| Flappy.FlappyBook.KeyDown | src/flappyBook.js:97-99 | the state afterwards is the key press of the state before: Space flaps, other keys do nothing |
| Flappy.FlappyBook.SpawnPipes | src/flappyBook.js:143-157 | appends the top pipe at (1200, gapY + 600) and then the bottom pipe at (1200, gapY - 600), changing nothing else |
| Flappy.FlappyBook.ResetGame | src/flappyBook.js:159-169 | height, velocity, pipes, score and spawn time return to zero; flags and overlay are kept |
| Flappy.FlappyBook.GameOver | src/flappyBook.js:171-180 | stops the game, hides the group, removes the input listeners and shows the final score |
| Flappy.FlappyBook.StartFlappy | src/flappyBook.js:183-191 | the state afterwards is the start of the state before |
| Flappy.FlappyBook.StopFlappy | src/flappyBook.js:193-201 | the state afterwards is the initial state |
| Flappy.FlappyBook.ClickStart | src/flappyBook.js:183-191 | the state afterwards is startFlappy followed by the window's flap listener when it is attached |
| Flappy.FlappyBook.ClickBook | src/flappyBook.js:204-208 | the overlay shows the start prompt and nothing else changes |
| Flappy.FlappyBook.Animate | src/flappyBook.js:102-140 | the state afterwards is one frame of the state before, with the in-place reverse-index loop over the pipes |
| Flappy.FlappyBook.MovePipes | src/flappyBook.js:122-137 | the reverse-index loop with in-place removal gives exactly one pass over the pipe list, ending the game at the first collision it meets |
| Room.RegisteredIff | src/main.js:209-225 | an object is an interactable if and only if it was one before or some visit of it is an interactive mesh; other entries are kept |
| Room.RegisteredPose | src/main.js:219-224 | an interactive mesh that no later visit overwrites is registered with its pose at the time of its visit |
| Room.BakedIff | src/main.js:211-217 | a mesh gets a baked material if and only if it had one or some visit of it is a mesh whose name has a baked texture; meshes with no such visit keep what they had |
| Room.BakedTexture | src/main.js:213-217 | a baked mesh that no later visit overwrites gets the texture of its own name |
| Room.RegisteredGrows | src/main.js:219-224 | registration only adds keys, and the key set does not depend on the stored poses |
| Room.EaseApproaches | src/main.js:252-256 | one lerp step with t = 0.1 moves a value toward its target without overshooting and leaves 0.9 of the distance |
| Room.HoverEasing | src/main.js:249-263 | each frame changes only the y position and the y rotation: the position moves toward base + 0.3 when hovered and toward base otherwise, and the rotation target ignores hovering |
| Room.EaseFramesDistance | src/main.js:249-263 | after n frames 0.9^n of the distance to the target is left, a factor in (0, 1] |
| Room.CaptionsCoverInteractives | src/main.js:79-96 | every interactive name has its own popup text; any other name gets "You clicked: " and the name |
| Room.SheepOnlyForBook3 | src/main.js:148-151 | a click spams sheep if and only if the hovered name is book3, and then twenty |
| Room.NdcOnScreen | src/main.js:128-131 | an on-screen pointer maps into [-1, 1] on both axes, with the corners mapped to ±1 and y flipped, and the mapping is invertible |
| Room.RoomPage.constructor | src/main.js:72-76 | the page starts with no interactables, no materials, nothing hovered and the popup hidden |
| Room.RoomPage.OnMouseMove | src/main.js:128-131 | the mouse holds the normalised device coordinates of the pointer, and nothing else changes |
| Room.RoomPage.LoadModel | src/main.js:209-225 | materials and interactables are the result of visiting the nodes in order, and the eased poses track the same keys |
| Room.RoomPage.Tick | src/main.js:240-269 | hovered is the first hit or none, the cursor is the pointer exactly when something is hovered, every interactable is eased one frame, and a hit on an interactable keeps hovered among them |
| Room.RoomPage.ShowCaption | src/main.js:133-139 | with something hovered the popup shows its caption; otherwise nothing changes |
| Room.RoomPage.SpamSheep | src/main.js:274-294 | adds exactly twenty sheep and changes nothing else |
| Room.RoomPage.ShowCaptionAndSheep | src/main.js:141-152 | shows the caption like the first listener and adds twenty sheep when book3 is hovered |
| Room.RoomPage.Click | src/main.js:133-152 | both click listeners in order: the caption of the hovered object, plus twenty sheep for book3; nothing when nothing is hovered |
| Room.RoomPage.ClosePopup | src/main.js:123-125 | hides the popup and keeps everything else |
| Room.RoomPage.ClickClose | src/main.js:123-152 | a click on Close that bubbles to the window: the popup stays closed only with nothing hovered; otherwise it shows the hovered caption again, and book3 adds twenty more sheep |
| Globe.PlacesDistinct | src/globe.js:3-12 | the table has eight places with distinct ids |
| Globe.Wrap | src/globe.js:49 | the index read is always a valid table position |
| Globe.IndexAfterCycles | src/globe.js:44-50 | the closure's index runs 1, 2, ..., 8, 1, 2, ... and the place read by call n is n mod 8 |
| Globe.ShownCycles | src/globe.js:47-67 | the k-th place shown is place k mod 8 of the table, wrapping around |
| Globe.AtMostOneRow | src/globe.js:19-32 | replacing the existing row and adding a new one leaves exactly one row when there was at most one |
| Globe.Slideshow.constructor | src/globe.js:14-79 | the slideshow starts active with the first place shown, the timer pending, the index at 1 and the row and plane attached |
| Globe.Slideshow.ShowNextImage | src/globe.js:47-77 | an inactive slideshow shows nothing; an active one appends place `shown mod 8` and schedules the next call |
| Globe.Slideshow.StopGlobe | src/globe.js:113-118 | stops the slideshow, clears the timer and removes the row and the plane, keeping what was shown |
| Globe.StoppedShowsNothing | src/globe.js:47-48 | after stopGlobe, any number of further showNextImage calls append nothing |

## Left out

- Rendering, the camera, orbit controls, resizing, the loaders and all DOM styling and animation timing are outside the model.
- Floating-point rounding: the game uses exact integers in thousandths and the room uses exact reals, so results that differ only by float rounding are not modelled.
- `requestAnimationFrame`, `setTimeout` and `cancelAnimationFrame`: callbacks are steps called explicitly, and a pending timer is a flag.
- Flappy.FlappyBook.SpawnPipes: the random gap height is a parameter assumed within [-250, 250) thousandths, the range `(Math.random() - 0.5) * 0.5` produces.
- Room.RoomPage.Tick: raycasting is an oracle list of hits; which object a ray hits, and whether a hit on a descendant mesh should count, is not modelled.
- Room.BakedIff: the texture test looks names up in a plain object, so a mesh named after an `Object.prototype` member (`constructor`, `toString`, ...) gets a material in the program but not in the model; only the names of the texture table count.
- Room.Caption: JavaScript property lookups on the popup text object that reach the prototype chain (a mesh named `constructor`, say) are not modelled; only the listed names have text.
- Room.RoomPage.SpamSheep: only the number of sheep is modelled; their random size, position, animation and removal are not.
- Globe.Slideshow: one slideshow is modelled. The module-level `globeTimeout` shared between several concurrent slideshows, the image fade-out timers and the plane animation are not modelled.
- Flappy.FlappyBook.StartFlappy and Room.RoomPage.ClosePopup model one listener each. The clicks that bubble further are modelled for the START button (`ClickStart`) and the Close button (`ClickClose`) only. A click on the game overlay also reaches the room's window listeners, and a click anywhere during a game flaps; the model keeps the game and the room page as separate objects and does not combine those.
- The other scripts of the site (the eight ball, the ghost event, the wolf, the aquarius, the daisy and the sheep modules) are not part of this model.
