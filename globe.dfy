/**
 * The globe slideshow of src/globe.js: showGlobePlace opens a row in the
 * popup and shows the places of a fixed table one after another, wrapping
 * around at the end, until stopGlobe turns the slideshow off.
 *
 * One call of showNextImage is one step; the one-second timer that chains
 * the calls is the `timerPending` flag.
 */
module Globe {

  datatype Place = Place(id: string, title: string, image: string, caption: string)

  const GlobePlaces: seq<Place> := [
    Place("japan", "\U{1F338}", "/public/places/cherry.jpg", ""),
    Place("france", "", "/public/places/castle.jpg", ""),
    Place("bangkok", "\U{1F6FA}", "/public/places/bangkok.jpg", ""),
    Place("castle", "\U{1F478}\U{1F3FB}\U{1F478}\U{1F3FC}\U{1F3F0}", "/public/places/scot.jpg", ""),
    Place("china", "", "/public/places/wall.jpg", ""),
    Place("italy", "\U{1F3DF}", "/public/places/collum.jpg", "\U{2694}\U{FE0F}"),
    Place("lisbon", "", "/public/places/lisbon.jpg", ""),
    Place("cow", "\U{1F404}", "/public/places/cow.jpg", "Moooooo!")
  ]

  /** The table has eight places with distinct ids. */
  lemma PlacesDistinct()
    ensures |GlobePlaces| == 8
    ensures forall i, j :: 0 <= i < j < |GlobePlaces| ==> GlobePlaces[i].id != GlobePlaces[j].id
  {
  }

  /** The index showNextImage reads: reset to 0 once it has reached the end. */
  function Wrap(index: nat): (k: nat)
    ensures k < |GlobePlaces|
  {
    if index >= |GlobePlaces| then 0 else index
  }

  /** The closure's index after n showNextImage calls on an active slideshow. */
  function IndexAfter(n: nat): nat {
    if n == 0 then 0 else Wrap(IndexAfter(n - 1)) + 1
  }

  /** The places appended to the row by n showNextImage calls on an active slideshow. */
  function Shown(n: nat): seq<Place> {
    if n == 0 then [] else Shown(n - 1) + [GlobePlaces[Wrap(IndexAfter(n - 1))]]
  }

  /** Counting up by one steps through the residues modulo 8 in order. */
  lemma ModSuccessor(m: nat)
    ensures m % 8 == 7 ==> (m + 1) % 8 == 0
    ensures m % 8 < 7 ==> (m + 1) % 8 == m % 8 + 1
  {
    var q, r := m / 8, m % 8;
    assert m == 8 * q + r;
    if r == 7 {
      assert m + 1 == 8 * (q + 1);
    } else {
      assert m + 1 == 8 * q + (r + 1);
    }
  }

  /** The index counts 1, 2, ..., 8, 1, 2, ...: it never leaves 0..8. */
  lemma {:induction false} IndexAfterCycles(n: nat)
    ensures IndexAfter(n) == if n == 0 then 0 else (n - 1) % |GlobePlaces| + 1
    ensures Wrap(IndexAfter(n)) == n % |GlobePlaces|
  {
    assert |GlobePlaces| == 8;
    if n > 0 {
      IndexAfterCycles(n - 1);
      ModSuccessor(n - 1);
    }
  }

  /** The k-th place shown, counting from 0, is place k mod 8. */
  lemma {:induction false} ShownCycles(n: nat)
    ensures |Shown(n)| == n
    ensures forall k :: 0 <= k < n ==> Shown(n)[k] == GlobePlaces[k % |GlobePlaces|]
  {
    if n > 0 {
      ShownCycles(n - 1);
      IndexAfterCycles(n - 1);
    }
  }

  /** The number of globe-row containers after showGlobePlace removes the first one and adds its own. */
  function RowsAfterShow(rows: nat): nat {
    (if rows > 0 then rows - 1 else 0) + 1
  }

  /** With at most one row before, there is exactly one after. */
  lemma AtMostOneRow(rows: nat)
    requires rows <= 1
    ensures RowsAfterShow(rows) == 1
  {
  }

  /** The closure created by one call of showGlobePlace. */
  class Slideshow {
    var index: nat
    var active: bool
    /** Places appended to the container, oldest first. */
    var shown: seq<Place>
    /** Whether globeTimeout holds a pending showNextImage. */
    var timerPending: bool
    /** globe-row containers present in the popup. */
    var rows: nat
    var containerAttached: bool
    var planeAttached: bool

    ghost predicate Valid()
      reads this
    {
      index == IndexAfter(|shown|) && shown == Shown(|shown|) && (containerAttached ==> rows >= 1)
    }

    /**
     * showGlobePlace(popup), with `rowsBefore` globe-row containers already
     * present: it replaces the first, appends its own row and the plane, and
     * shows the first place at once.
     */
    constructor (rowsBefore: nat)
      ensures Valid()
      ensures active && timerPending && shown == [GlobePlaces[0]] && index == 1
      ensures rows == RowsAfterShow(rowsBefore) && containerAttached && planeAttached
    {
      rows := RowsAfterShow(rowsBefore);
      containerAttached := true;
      index := 0;
      active := true;
      shown := [];
      timerPending := false;
      planeAttached := false;
      new;
      ShowNextImage();
      planeAttached := true;
    }

    /** showNextImage: nothing once inactive; otherwise the next place, wrapping at the end. */
    method ShowNextImage()
      requires Valid()
      modifies this
      ensures Valid()
      ensures !old(active) ==> shown == old(shown) && index == old(index) && timerPending == old(timerPending)
      ensures old(active) ==>
        shown == old(shown) + [GlobePlaces[|old(shown)| % |GlobePlaces|]] && timerPending
      ensures 1 <= index <= |GlobePlaces| || index == old(index)
      ensures active == old(active) && rows == old(rows)
      ensures containerAttached == old(containerAttached) && planeAttached == old(planeAttached)
    {
      if !active {
        return;
      }
      if index >= |GlobePlaces| {
        index := 0;
      }
      var place := GlobePlaces[index];
      index := index + 1;
      shown := shown + [place];
      timerPending := true;
      IndexAfterCycles(|old(shown)|);
    }

    /** stopGlobe: switch off, clear the timer, remove the row and the plane. */
    method StopGlobe()
      requires Valid()
      modifies this
      ensures Valid()
      ensures !active && !timerPending && !containerAttached && !planeAttached
      ensures rows == if old(containerAttached) then old(rows) - 1 else old(rows)
      ensures shown == old(shown) && index == old(index)
    {
      active := false;
      timerPending := false;
      if containerAttached {
        containerAttached := false;
        rows := rows - 1;
      }
      planeAttached := false;
    }
  }

  /** After stopGlobe, showNextImage appends nothing, however often it runs. */
  method StoppedShowsNothing(s: Slideshow, calls: nat)
    requires s.Valid()
    modifies s
    ensures s.shown == old(s.shown) && !s.active
  {
    s.StopGlobe();
    var i := 0;
    while i < calls
      invariant s.Valid() && !s.active && s.shown == old(s.shown)
    {
      s.ShowNextImage();
      i := i + 1;
    }
  }
}
