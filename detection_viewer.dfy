/** The canvas overlay of client/components/object-detection-viewer.tsx: the hit
    test that picks the hovered object, the rectangles drawn for a box and its
    label, the per-class colour map, and the confidence shown for the hovered object.
    Points are in canvas coordinates; the client-to-canvas scaling is not modelled. */
module DetectionViewer {
  import opened Records

  /** The hit test of `handleMouseMove`: all four edges count as inside. */
  predicate BoxContains(b: Box, x: real, y: real)
  {
    x >= b.x1 && x <= b.x2 && y >= b.y1 && y <= b.y2
  }

  /** The first object in list order whose box contains the point, if any. The loop
      stops at the first hit, so a later object never wins over an earlier one. */
  method FindHoveredObject(detectedObjects: seq<DetectedObject>, x: real, y: real)
    returns (found: Option<DetectedObject>)
    ensures found.None? <==> forall i | 0 <= i < |detectedObjects| :: !BoxContains(detectedObjects[i].box, x, y)
    ensures found.Some? ==>
      exists i | 0 <= i < |detectedObjects| ::
        && detectedObjects[i] == found.value
        && BoxContains(detectedObjects[i].box, x, y)
        && forall j | 0 <= j < i :: !BoxContains(detectedObjects[j].box, x, y)
  {
    found := None;
    var i := 0;
    while i < |detectedObjects|
      invariant 0 <= i <= |detectedObjects|
      invariant found.None?
      invariant forall j | 0 <= j < i :: !BoxContains(detectedObjects[j].box, x, y)
    {
      var b := detectedObjects[i].box;
      if x >= b.x1 && x <= b.x2 && y >= b.y1 && y <= b.y2 {
        found := Some(detectedObjects[i]);
        break;
      }
      i := i + 1;
    }
  }

  /** A rectangle as the canvas takes it: a corner, a width and a height. */
  datatype Rect = Rect(x: real, y: real, width: real, height: real)

  /** The points a stroked or filled rectangle covers. A negative width or height
      extends the rectangle to the left or upwards of its corner. */
  predicate RectCovers(r: Rect, x: real, y: real)
  {
    && (if r.width >= 0.0 then r.x <= x <= r.x + r.width else r.x + r.width <= x <= r.x)
    && (if r.height >= 0.0 then r.y <= y <= r.y + r.height else r.y + r.height <= y <= r.y)
  }

  /** The rectangle stroked for a box: from corner `(x1, y1)` to corner `(x2, y2)`. */
  function BoxRect(b: Box): (r: Rect)
    ensures r.x == b.x1 && r.y == b.y1
    ensures r.x + r.width == b.x2 && r.y + r.height == b.y2
  {
    Rect(b.x1, b.y1, b.x2 - b.x1, b.y2 - b.y1)
  }

  /** The height of the label background. */
  const LabelHeight := 20.0

  /** The label background: as wide as the class name plus 10, and `LabelHeight`
      tall, sitting on the top edge of the box from its left corner. */
  function LabelRect(b: Box, textWidth: real): (r: Rect)
    ensures r.x == b.x1 && r.y + r.height == b.y1 && r.height == LabelHeight
    ensures r.width == textWidth + 10.0
  {
    Rect(b.x1, b.y1 - LabelHeight, textWidth + 10.0, LabelHeight)
  }

  /** A point can be hovered only where its box is drawn, and for a box whose corners
      are in order the hover area is exactly the drawn rectangle. */
  lemma HoverAreaIsDrawnArea(b: Box, x: real, y: real)
    ensures BoxContains(b, x, y) ==> RectCovers(BoxRect(b), x, y)
    ensures b.x1 <= b.x2 && b.y1 <= b.y2 ==> (RectCovers(BoxRect(b), x, y) <==> BoxContains(b, x, y))
  {
  }

  /** A box with its corners reversed is still drawn, but no point ever hovers it. */
  lemma ReversedBoxNeverHovered(b: Box, x: real, y: real)
    requires b.x2 < b.x1 && b.y1 <= b.y2
    ensures !BoxContains(b, x, y)
    ensures RectCovers(BoxRect(b), b.x2, b.y1)
  {
  }

  /** The label never covers the hover area of its own box, except along the shared
      top edge. */
  lemma LabelAboveBox(b: Box, textWidth: real, x: real, y: real)
    requires RectCovers(LabelRect(b, textWidth), x, y) && BoxContains(b, x, y)
    ensures y == b.y1
  {
  }

  /** `Math.floor(Math.random() * 360)` for a draw of `Math.random()`. */
  function Hue(draw: real): (h: int)
    requires 0.0 <= draw < 1.0
    ensures 0 <= h < 360
    ensures h as real <= draw * 360.0 < h as real + 1.0
  {
    (draw * 360.0).Floor
  }

  /** Every hue in the map is a valid hue. */
  predicate HuesInRange(colorMap: map<string, int>)
  {
    forall c | c in colorMap :: 0 <= colorMap[c] < 360
  }

  /** The colour used to draw a class: its entry, or hue 0 when it has none; either
      way a valid hue. */
  function ColorFor(colorMap: map<string, int>, className: string): (h: int)
    ensures className !in colorMap ==> h == 0
    ensures HuesInRange(colorMap) ==> 0 <= h < 360
  {
    if className in colorMap then colorMap[className] else 0
  }

  /** The classes of the first `i` objects. */
  function ClassesBefore(objs: seq<DetectedObject>, i: nat): set<string>
    requires i <= |objs|
  {
    set j | 0 <= j < i :: objs[j].className
  }

  /** The classes among the first `i` objects that are not in `known`, each once, in
      the order of their first occurrence: the classes the colour effect draws a hue
      for, in draw order. */
  function NewClassesBefore(objs: seq<DetectedObject>, i: nat, known: set<string>): (r: seq<string>)
    requires i <= |objs|
    ensures |r| <= i
  {
    if i == 0 then []
    else
      var p := NewClassesBefore(objs, i - 1, known);
      var c := objs[i - 1].className;
      if c in known || c in p then p else p + [c]
  }

  /** The new classes of the whole list. */
  function NewClasses(objs: seq<DetectedObject>, known: set<string>): seq<string>
  {
    NewClassesBefore(objs, |objs|, known)
  }

  /** A class is new exactly when one of the objects has it and it is not known. */
  lemma {:induction false} NewClassesMembers(objs: seq<DetectedObject>, i: nat, known: set<string>)
    requires i <= |objs|
    ensures forall c :: c in NewClassesBefore(objs, i, known) <==> c in ClassesBefore(objs, i) - known
  {
    if i > 0 {
      NewClassesMembers(objs, i - 1, known);
      assert ClassesBefore(objs, i) == ClassesBefore(objs, i - 1) + {objs[i - 1].className};
    }
  }

  /** No class is drawn for twice. */
  lemma {:induction false} NewClassesDistinct(objs: seq<DetectedObject>, i: nat, known: set<string>)
    requires i <= |objs|
    ensures forall a, b | 0 <= a < b < |NewClassesBefore(objs, i, known)| ::
      NewClassesBefore(objs, i, known)[a] != NewClassesBefore(objs, i, known)[b]
  {
    if i > 0 {
      NewClassesDistinct(objs, i - 1, known);
    }
  }

  /** The new classes of a shorter prefix of the list come first. */
  lemma {:induction false} NewClassesPrefix(objs: seq<DetectedObject>, i: nat, j: nat, known: set<string>)
    requires i <= j <= |objs|
    ensures NewClassesBefore(objs, i, known) <= NewClassesBefore(objs, j, known)
    decreases j
  {
    if i < j {
      NewClassesPrefix(objs, i, j - 1, known);
    }
  }

  /** At the first occurrence of an unknown class, that class is the next one drawn
      for: it sits right after the new classes of the objects before it. */
  lemma NewClassAtFirstOccurrence(objs: seq<DetectedObject>, known: set<string>, i: nat)
    requires i < |objs|
    requires objs[i].className !in known
    requires forall j | 0 <= j < i :: objs[j].className != objs[i].className
    ensures |NewClassesBefore(objs, i, known)| < |NewClasses(objs, known)|
    ensures NewClasses(objs, known)[|NewClassesBefore(objs, i, known)|] == objs[i].className
  {
    assert objs[i].className !in NewClassesBefore(objs, i, known) by {
      NewClassesMembers(objs, i, known);
      assert objs[i].className !in ClassesBefore(objs, i);
    }
    assert NewClassesBefore(objs, i + 1, known) == NewClassesBefore(objs, i, known) + [objs[i].className];
    NewClassesPrefix(objs, i + 1, |objs|, known);
  }

  /** The hues the draws give, in draw order. */
  function HuesOf(draws: seq<real>): (hues: seq<int>)
    requires forall k | 0 <= k < |draws| :: 0.0 <= draws[k] < 1.0
    ensures |hues| == |draws|
    ensures forall k | 0 <= k < |draws| :: hues[k] == Hue(draws[k]) && 0 <= hues[k] < 360
  {
    seq(|draws|, k requires 0 <= k < |draws| => Hue(draws[k]))
  }

  /** The entries of a sequence of class names, as a set. */
  function Elements(s: seq<string>): set<string>
  {
    if s == [] then {} else Elements(s[..|s| - 1]) + {s[|s| - 1]}
  }

  /** A name is in `Elements(s)` exactly when it is an entry of `s`. */
  lemma {:induction false} ElementsMembers(s: seq<string>, c: string)
    ensures c in Elements(s) <==> c in s
  {
    if s != [] {
      ElementsMembers(s[..|s| - 1], c);
      assert s == s[..|s| - 1] + [s[|s| - 1]];
    }
  }

  /** A colour map that extends `before` by one hue per class of `drawn`: the known
      classes keep their hues, the `j`-th class of `drawn` has the `j`-th hue, and no
      other class has a colour. */
  predicate ColoredBy(before: map<string, int>, m: map<string, int>, drawn: seq<string>, hues: seq<int>)
  {
    && (forall c | c in before :: c in m && m[c] == before[c])
    && |drawn| <= |hues|
    && (forall j | 0 <= j < |drawn| :: drawn[j] in m && m[drawn[j]] == hues[j])
    && m.Keys <= before.Keys + Elements(drawn)
  }

  /** A class without a colour takes the next hue, and the classes before it keep
      theirs. */
  lemma ColoredByExtend(before: map<string, int>, m: map<string, int>, drawn: seq<string>,
                        c: string, hues: seq<int>)
    requires ColoredBy(before, m, drawn, hues)
    requires c !in m
    requires |drawn| < |hues|
    ensures c !in drawn
    ensures ColoredBy(before, m[c := hues[|drawn|]], drawn + [c], hues)
  {
    var m' := m[c := hues[|drawn|]];
    var drawn' := drawn + [c];
    forall j | 0 <= j < |drawn|
      ensures drawn[j] != c
    {
      assert drawn[j] in m;
    }
    assert drawn'[..|drawn'| - 1] == drawn;
    forall j | 0 <= j < |drawn'|
      ensures drawn'[j] in m' && m'[drawn'[j]] == hues[j]
    {
      if j < |drawn| {
        assert drawn[j] in m;
      }
    }
  }

  /** The colour map after the colour effect has passed the first `i` objects,
      starting from `before`. */
  predicate ColoredUpTo(before: map<string, int>, m: map<string, int>,
                        objs: seq<DetectedObject>, i: nat, hues: seq<int>)
    requires i <= |objs|
  {
    ColoredBy(before, m, NewClassesBefore(objs, i, before.Keys), hues)
  }

  /** A class that already has a colour draws nothing. */
  lemma ColorStepKnown(before: map<string, int>, m: map<string, int>,
                       objs: seq<DetectedObject>, i: nat, hues: seq<int>)
    requires i < |objs|
    requires ColoredUpTo(before, m, objs, i, hues)
    requires objs[i].className in m
    ensures NewClassesBefore(objs, i + 1, before.Keys) == NewClassesBefore(objs, i, before.Keys)
    ensures ColoredUpTo(before, m, objs, i + 1, hues)
  {
    ElementsMembers(NewClassesBefore(objs, i, before.Keys), objs[i].className);
  }

  /** A class without a colour takes the next hue; the classes drawn for before it
      keep theirs. */
  lemma ColorStepNew(before: map<string, int>, m: map<string, int>,
                     objs: seq<DetectedObject>, i: nat, hues: seq<int>)
    requires i < |objs|
    requires |NewClasses(objs, before.Keys)| <= |hues|
    requires ColoredUpTo(before, m, objs, i, hues)
    requires objs[i].className !in m
    ensures NewClassesBefore(objs, i + 1, before.Keys) == NewClassesBefore(objs, i, before.Keys) + [objs[i].className]
    ensures |NewClassesBefore(objs, i, before.Keys)| < |hues|
    ensures ColoredUpTo(before, m[objs[i].className := hues[|NewClassesBefore(objs, i, before.Keys)|]], objs, i + 1, hues)
  {
    var c := objs[i].className;
    var drawn := NewClassesBefore(objs, i, before.Keys);
    assert |drawn| < |hues| by {
      NewClassesPrefix(objs, i + 1, |objs|, before.Keys);
    }
    ColoredByExtend(before, m, drawn, c, hues);
  }

  /** What the colour effect leaves behind once it has passed every object: every
      class of the list has a colour, the known classes keep theirs, the `j`-th new
      class has the hue of the `j`-th draw, every object's class is drawn in its own
      colour, and a list of known classes leaves the map as it was. */
  lemma ColorsOfNewClasses(before: map<string, int>, after: map<string, int>,
                           objs: seq<DetectedObject>, draws: seq<real>)
    requires forall k | 0 <= k < |draws| :: 0.0 <= draws[k] < 1.0
    requires HuesInRange(before)
    requires ColoredUpTo(before, after, objs, |objs|, HuesOf(draws))
    ensures HuesInRange(after)
    ensures after.Keys == before.Keys + set i | 0 <= i < |objs| :: objs[i].className
    ensures forall c | c in before :: after[c] == before[c]
    ensures |NewClasses(objs, before.Keys)| <= |draws|
    ensures forall j | 0 <= j < |NewClasses(objs, before.Keys)| ::
      && NewClasses(objs, before.Keys)[j] in after
      && after[NewClasses(objs, before.Keys)[j]] == Hue(draws[j])
    ensures forall c | c in after && c !in before :: exists k | 0 <= k < |draws| :: after[c] == Hue(draws[k])
    ensures forall i | 0 <= i < |objs| :: ColorFor(after, objs[i].className) == after[objs[i].className]
    ensures (forall i | 0 <= i < |objs| :: objs[i].className in before) ==> after == before
  {
    var drawn := NewClasses(objs, before.Keys);
    var hues := HuesOf(draws);
    NewClassesMembers(objs, |objs|, before.Keys);
    forall c
      ensures c in after <==> c in before || c in ClassesBefore(objs, |objs|)
      ensures c in after && c !in before ==> exists k | 0 <= k < |drawn| :: drawn[k] == c
    {
      ElementsMembers(drawn, c);
      if c in drawn {
        var k :| 0 <= k < |drawn| && drawn[k] == c;
        assert drawn[k] in after;
      }
    }
    assert after.Keys == before.Keys + ClassesBefore(objs, |objs|);
    forall c | c in after
      ensures 0 <= after[c] < 360
    {
      if c !in before {
        var k :| 0 <= k < |drawn| && drawn[k] == c;
        assert after[drawn[k]] == hues[k];
      }
    }
    forall c | c in after && c !in before
      ensures exists k | 0 <= k < |draws| :: after[c] == Hue(draws[k])
    {
      var k :| 0 <= k < |drawn| && drawn[k] == c;
      assert after[drawn[k]] == hues[k];
    }
    if forall i | 0 <= i < |objs| :: objs[i].className in before {
      assert after.Keys == before.Keys;
    }
  }

  /** Rounds as `Math.round` does: halves go up. */
  function Round(v: real): (r: int)
    ensures r as real - 0.5 <= v < r as real + 0.5
  {
    (v + 0.5).Floor
  }

  /** The confidence shown for the hovered object, in percent. */
  function ConfidencePercent(confidence: real): (p: int)
    ensures 0.0 <= confidence <= 1.0 ==> 0 <= p <= 100
  {
    Round(confidence * 100.0)
  }

  /** The viewer's `hoveredObject` state and its `colorMap` ref. Colours are kept as
      hues, the only part of the `hsl(...)` string that varies. */
  class Viewer {
    var hoveredObject: Option<DetectedObject>
    var colorMap: map<string, int>

    predicate Valid()
      reads this
    {
      HuesInRange(colorMap)
    }

    constructor ()
      ensures Valid()
      ensures hoveredObject == None && colorMap == map[]
    {
      hoveredObject := None;
      colorMap := map[];
    }

    /** `handleMouseMove` with the mouse at `(x, y)`: the hovered object becomes the
        first object whose box contains the point, or none. */
    method HandleMouseMove(detectedObjects: seq<DetectedObject>, x: real, y: real)
      modifies this`hoveredObject
      ensures hoveredObject.None? <==> forall i | 0 <= i < |detectedObjects| :: !BoxContains(detectedObjects[i].box, x, y)
      ensures hoveredObject.Some? ==>
        exists i | 0 <= i < |detectedObjects| ::
          && detectedObjects[i] == hoveredObject.value
          && BoxContains(detectedObjects[i].box, x, y)
          && forall j | 0 <= j < i :: !BoxContains(detectedObjects[j].box, x, y)
    {
      hoveredObject := FindHoveredObject(detectedObjects, x, y);
    }

    /** `onMouseLeave`: nothing is hovered. */
    method HandleMouseLeave()
      modifies this`hoveredObject
      ensures hoveredObject == None
    {
      hoveredObject := None;
    }

    /** The colour effect: every class of the list that has no colour yet gets a hue
        from the next random draw, once, at its first occurrence; a class that has one
        keeps it. `draws` are the values `Math.random()` returns, in call order. */
    method AssignColors(detectedObjects: seq<DetectedObject>, draws: seq<real>)
      requires Valid()
      requires |draws| >= |NewClasses(detectedObjects, colorMap.Keys)|
      requires forall k | 0 <= k < |draws| :: 0.0 <= draws[k] < 1.0
      modifies this`colorMap
      ensures Valid()
      ensures colorMap.Keys == old(colorMap).Keys + set i | 0 <= i < |detectedObjects| :: detectedObjects[i].className
      ensures forall c | c in old(colorMap) :: colorMap[c] == old(colorMap)[c]
      ensures forall j | 0 <= j < |NewClasses(detectedObjects, old(colorMap).Keys)| ::
        && NewClasses(detectedObjects, old(colorMap).Keys)[j] in colorMap
        && colorMap[NewClasses(detectedObjects, old(colorMap).Keys)[j]] == Hue(draws[j])
      ensures forall c | c in colorMap && c !in old(colorMap) :: exists k | 0 <= k < |draws| :: colorMap[c] == Hue(draws[k])
      ensures forall i | 0 <= i < |detectedObjects| :: ColorFor(colorMap, detectedObjects[i].className) == colorMap[detectedObjects[i].className]
      ensures (forall i | 0 <= i < |detectedObjects| :: detectedObjects[i].className in old(colorMap)) ==> colorMap == old(colorMap)
    {
      ghost var before := colorMap;
      DrawNewColors(detectedObjects, draws);
      ColorsOfNewClasses(before, colorMap, detectedObjects, draws);
    }

    /** The loop of the colour effect: walks the list once and gives each class
        without a colour the next draw. */
    method DrawNewColors(detectedObjects: seq<DetectedObject>, draws: seq<real>)
      requires HuesInRange(colorMap)
      requires |draws| >= |NewClasses(detectedObjects, colorMap.Keys)|
      requires forall k | 0 <= k < |draws| :: 0.0 <= draws[k] < 1.0
      modifies this`colorMap
      ensures ColoredUpTo(old(colorMap), colorMap, detectedObjects, |detectedObjects|, HuesOf(draws))
    {
      ghost var before := colorMap;
      ghost var hues := HuesOf(draws);
      var used := 0;
      var i := 0;
      while i < |detectedObjects|
        invariant 0 <= i <= |detectedObjects|
        invariant used == |NewClassesBefore(detectedObjects, i, before.Keys)|
        invariant ColoredUpTo(before, colorMap, detectedObjects, i, hues)
      {
        var className := detectedObjects[i].className;
        if className !in colorMap {
          ColorStepNew(before, colorMap, detectedObjects, i, hues);
          colorMap := colorMap[className := Hue(draws[used])];
          used := used + 1;
        } else {
          ColorStepKnown(before, colorMap, detectedObjects, i, hues);
        }
        i := i + 1;
      }
    }
  }
}
