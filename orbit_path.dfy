/** `createOrbitPath`: the SVG path commands that take a wire once (or
    several times) around a node: a line to the rightmost point of the
    circle, then per loop two half-circle arcs, over the top to the leftmost
    point and back to the rightmost. Coordinates are integers at every call
    site, so numbers are rendered as integer decimals. */
module OrbitPath {
  import Numerals
  import Lines

  /** One path command: `L x y` or `A rx ry rotation large-arc sweep x y`. */
  datatype Segment =
    | LineTo(x: int, y: int)
    | Arc(rx: int, ry: int, rotation: int, largeArc: int, sweep: int, x: int, y: int)

  /** The point a command ends at. */
  function EndPoint(seg: Segment): (int, int)
  {
    (seg.x, seg.y)
  }

  /** The space-separated fields of a command. */
  function Fields(seg: Segment): (fs: seq<string>)
    ensures |fs| >= 1 && Lines.SeparatorFree(fs, ' ')
  {
    match seg
    case LineTo(x, y) => ["L", Numerals.IntToString(x), Numerals.IntToString(y)]
    case Arc(rx, ry, rotation, largeArc, sweep, x, y) =>
      ["A", Numerals.IntToString(rx), Numerals.IntToString(ry), Numerals.IntToString(rotation),
       Numerals.IntToString(largeArc), Numerals.IntToString(sweep), Numerals.IntToString(x),
       Numerals.IntToString(y)]
  }

  /** The text of a command, as the template literals write it. */
  function Render(seg: Segment): string
  {
    Lines.Join(Fields(seg), ' ')
  }

  function RenderAll(segs: seq<Segment>): (texts: seq<string>)
    ensures |texts| == |segs|
  {
    seq(|segs|, i requires 0 <= i < |segs| => Render(segs[i]))
  }

  /** The fields of a list of commands, in order. */
  function AllFields(segs: seq<Segment>): seq<string>
  {
    if segs == [] then [] else Fields(segs[0]) + AllFields(segs[1..])
  }

  /** The two half-circle arcs of one loop, both with radius `r` on both
      axes, no rotation, the small arc, clockwise. */
  function HalfTurns(cx: int, cy: int, r: int): seq<Segment>
  {
    [Arc(r, r, 0, 0, 1, cx - r, cy), Arc(r, r, 0, 0, 1, cx + r, cy)]
  }

  /** The commands after `loops` rounds of the loop; the first round also
      draws the line to the start of the orbit. */
  function Orbit(cx: int, cy: int, r: int, loops: int): seq<Segment>
    decreases loops
  {
    if loops <= 0 then []
    else Orbit(cx, cy, r, loops - 1) + (if loops == 1 then [LineTo(cx + r, cy)] else []) + HalfTurns(cx, cy, r)
  }

  /** The returned path: the commands joined with single spaces. */
  function OrbitPathText(cx: int, cy: int, r: int, loops: int): string
  {
    Lines.Join(RenderAll(Orbit(cx, cy, r, loops)), ' ')
  }

  /** The loop of `createOrbitPath`, pushing command strings onto
      `circleSegments`, then the join. */
  method CreateOrbitPath(centerX: int, centerY: int, radius: int, loops: int) returns (path: string)
    ensures path == OrbitPathText(centerX, centerY, radius, loops)
  {
    var circleSegments: seq<string> := [];
    var i := 0;
    while i < loops
      invariant 0 <= i && (if loops >= 0 then i <= loops else i == 0)
      invariant circleSegments == RenderAll(Orbit(centerX, centerY, radius, i))
    {
      ghost var start := if i == 0 then [LineTo(centerX + radius, centerY)] else [];
      OrbitStep(centerX, centerY, radius, i);
      if i == 0 {
        circleSegments := circleSegments + [Render(LineTo(centerX + radius, centerY))];
      }
      assert circleSegments == RenderAll(Orbit(centerX, centerY, radius, i) + start);
      circleSegments := circleSegments + [Render(Arc(radius, radius, 0, 0, 1, centerX - radius, centerY))];
      circleSegments := circleSegments + [Render(Arc(radius, radius, 0, 0, 1, centerX + radius, centerY))];
      i := i + 1;
    }
    assert Orbit(centerX, centerY, radius, i) == Orbit(centerX, centerY, radius, loops);
    path := Lines.Join(circleSegments, ' ');
  }

  lemma RenderAllAppend(a: seq<Segment>, b: seq<Segment>)
    ensures RenderAll(a + b) == RenderAll(a) + RenderAll(b)
  {
    var l, r := RenderAll(a + b), RenderAll(a) + RenderAll(b);
    forall i | 0 <= i < |a + b| ensures l[i] == r[i] {
      if i < |a| {
        assert (a + b)[i] == a[i];
      } else {
        assert (a + b)[i] == b[i - |a|];
      }
    }
  }

  /** One round of the loop appends the (first-round) line and two arcs. */
  lemma OrbitStep(cx: int, cy: int, r: int, i: int)
    requires i >= 0
    ensures var start := if i == 0 then [LineTo(cx + r, cy)] else [];
            && RenderAll(Orbit(cx, cy, r, i) + start) == RenderAll(Orbit(cx, cy, r, i)) + RenderAll(start)
            && RenderAll(Orbit(cx, cy, r, i + 1))
               == RenderAll(Orbit(cx, cy, r, i) + start)
                  + [Render(Arc(r, r, 0, 0, 1, cx - r, cy)), Render(Arc(r, r, 0, 0, 1, cx + r, cy))]
  {
    var start := if i == 0 then [LineTo(cx + r, cy)] else [];
    RenderAllAppend(Orbit(cx, cy, r, i), start);
    RenderAllAppend(Orbit(cx, cy, r, i) + start, HalfTurns(cx, cy, r));
    assert Orbit(cx, cy, r, i + 1) == Orbit(cx, cy, r, i) + start + HalfTurns(cx, cy, r);
  }

  /** With no loops the path is empty. */
  lemma NoLoopsNoPath(cx: int, cy: int, r: int, loops: int)
    requires loops <= 0
    ensures OrbitPathText(cx, cy, r, loops) == ""
  {
  }

  /** With at least one loop: 1 + 2·loops commands; the only line comes
      first and goes to the rightmost point; then arcs alternate between the
      leftmost and the rightmost point, all of radius `r` with flags 0 0 1. */
  lemma {:induction false} OrbitShape(cx: int, cy: int, r: int, loops: int)
    requires loops >= 1
    ensures var o := Orbit(cx, cy, r, loops);
            && |o| == 1 + 2 * loops
            && o[0] == LineTo(cx + r, cy)
            && forall j :: 1 <= j < |o| ==>
                 o[j] == Arc(r, r, 0, 0, 1, if j % 2 == 1 then cx - r else cx + r, cy)
  {
    if loops > 1 {
      OrbitShape(cx, cy, r, loops - 1);
    }
  }

  /** The orbit ends where it began: at the rightmost point of the circle. */
  lemma EndsWhereItBegan(cx: int, cy: int, r: int, loops: int)
    requires loops >= 1
    ensures var o := Orbit(cx, cy, r, loops);
            EndPoint(o[|o| - 1]) == EndPoint(o[0]) == (cx + r, cy)
  {
    OrbitShape(cx, cy, r, loops);
  }

  /** Joining rendered commands with single spaces is the same as joining
      all their fields with single spaces. */
  lemma {:induction false} JoinRendered(segs: seq<Segment>)
    requires |segs| >= 1
    ensures Lines.Join(RenderAll(segs), ' ') == Lines.Join(AllFields(segs), ' ')
  {
    RenderAllCons(segs);
    AllFieldsCons(segs);
    if |segs| > 1 {
      JoinRendered(segs[1..]);
      AllFieldsNonEmpty(segs[1..]);
      Lines.JoinCons(Render(segs[0]), RenderAll(segs[1..]), ' ');
      Lines.JoinAppend(Fields(segs[0]), AllFields(segs[1..]), ' ');
    } else {
      assert RenderAll(segs[1..]) == [] && AllFields(segs[1..]) == [];
      assert RenderAll(segs) == [Render(segs[0])] && AllFields(segs) == Fields(segs[0]);
    }
  }

  /** The first command's text comes first. */
  lemma RenderAllCons(segs: seq<Segment>)
    requires |segs| >= 1
    ensures RenderAll(segs) == [Render(segs[0])] + RenderAll(segs[1..])
  {
    RenderAllAppend([segs[0]], segs[1..]);
    assert [segs[0]] + segs[1..] == segs;
  }

  /** The first command's fields come first. */
  lemma AllFieldsCons(segs: seq<Segment>)
    requires |segs| >= 1
    ensures AllFields(segs) == Fields(segs[0]) + AllFields(segs[1..])
  {
  }

  lemma {:induction false} AllFieldsNonEmpty(segs: seq<Segment>)
    requires |segs| >= 1
    ensures |AllFields(segs)| >= 1 && Lines.SeparatorFree(AllFields(segs), ' ')
  {
    if |segs| > 1 {
      AllFieldsNonEmpty(segs[1..]);
    }
    AllFieldsCons(segs);
    Lines.SeparatorFreeAppend(Fields(segs[0]), AllFields(segs[1..]), ' ');
  }

  /** The path is a list of fields separated by single spaces: splitting it
      at spaces gives back exactly the commands' fields, with no empty field
      (so no doubled or stray space). */
  lemma PathFields(cx: int, cy: int, r: int, loops: int)
    requires loops >= 1
    ensures Lines.Split(OrbitPathText(cx, cy, r, loops), ' ') == AllFields(Orbit(cx, cy, r, loops))
  {
    var o := Orbit(cx, cy, r, loops);
    OrbitShape(cx, cy, r, loops);
    JoinRendered(o);
    AllFieldsNonEmpty(o);
    Lines.SplitJoin(AllFields(o), ' ');
  }

  /** The orbit spliced into the first wire: one loop of radius 12 around
      the node at (500, 180) jumps to (512, 180), swings over to (488, 180)
      and back. */
  lemma FirstWireOrbit()
    ensures Orbit(500, 180, 12, 1)
         == [LineTo(512, 180), Arc(12, 12, 0, 0, 1, 488, 180), Arc(12, 12, 0, 0, 1, 512, 180)]
  {
  }
}
