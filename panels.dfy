/** Cabinet panels: the geom half-extents and centres each panel style
    computes, the handle placement rule, and the prefixing predicate. */
module CabinetPanels {
  import opened Common

  datatype Vec3 = Vec3(x: real, y: real, z: real)

  /** A geom as MuJoCo sizes it: half-extents and the centre. */
  datatype Box = Box(size: Vec3, pos: Vec3)

  /** The `sizes` and `positions` dicts, keyed by geom name. */
  type Layout = map<string, Box>

  function XLo(b: Box): real { b.pos.x - b.size.x }
  function XHi(b: Box): real { b.pos.x + b.size.x }
  function ZLo(b: Box): real { b.pos.z - b.size.z }
  function ZHi(b: Box): real { b.pos.z + b.size.z }

  // ---------------------------------------------------------------------
  // Prefixing

  /** The argument of `exclude_from_prefixing`: an attribute string or an
      XML element, of which only the tag matters. */
  datatype Prefixable = Text(s: string) | Element(tag: string)

  /** `tex` starts at offset `i` of `s`. */
  predicate TexAt(s: string, i: int)
  {
    0 <= i && i + 3 <= |s| && s[i] == 't' && s[i + 1] == 'e' && s[i + 2] == 'x'
  }

  /** `tex` occurs somewhere in `s`. */
  ghost predicate Occurs(s: string)
  {
    exists i :: TexAt(s, i)
  }

  /** Python's `"tex" in s` on a string. */
  function HasTex(s: string): (r: bool)
    ensures r <==> Occurs(s)
  {
    if |s| < 3 then
      NoRoom(s);
      false
    else if s[..3] == "tex" then
      assert TexAt(s, 0);
      true
    else
      var r := HasTex(s[1..]);
      OccursShift(s);
      r
  }

  lemma NoRoom(s: string)
    requires |s| < 3
    ensures !Occurs(s)
  {
  }

  lemma OccursShift(s: string)
    requires |s| >= 3 && s[..3] != "tex"
    ensures Occurs(s) <==> Occurs(s[1..])
  {
    if Occurs(s) {
      var i :| TexAt(s, i);
      assert i != 0;
      assert TexAt(s[1..], i - 1);
    }
    if Occurs(s[1..]) {
      var i :| TexAt(s[1..], i);
      assert TexAt(s, i + 1);
    }
  }

  /** `exclude_from_prefixing`: a string containing `tex`, or a `texture`
      element. An element's `in` test looks at its children, which are never
      equal to a string, so only the tag decides for an element. */
  function ExcludeFromPrefixing(inp: Prefixable): (r: bool)
    ensures inp.Text? ==> (r <==> Occurs(inp.s))
    ensures inp.Element? ==> (r <==> inp.tag == "texture")
  {
    match inp
    case Text(s) => HasTex(s)
    case Element(tag) => tag == "texture"
  }

  // ---------------------------------------------------------------------
  // Panel styles and their layouts

  /** The panel classes with their own constructor arguments. */
  datatype Style =
    | Slab
    | Shaker(trimTh: real, trimSize: real)
    | Raised(trimTh: real, trimSize: real, raisedGap: real)
    | DividedWindow(trimTh: real, trimSize: real)
    | FullWindowed(trimTh: real, trimSize: real, opacity: real)

  const DefaultTrimTh: real := 0.02
  const DefaultTrimSize: real := 0.08
  const DefaultRaisedGap: real := 0.01
  const DefaultOpacity: real := 0.5

  /** The shaker door and its four trims, from the half-extents `x, y, z`,
      the half trim thickness `th` and the half trim size `ts`. */
  function ShakerGeoms(x: real, y: real, z: real, th: real, ts: real): Layout
  {
    var doorTh := y - th;
    var doorY := th / 2.0;
    var trimY := -doorTh / 2.0;
    map[
      "door" := Box(Vec3(x - ts * 2.0, doorTh, z - ts * 2.0), Vec3(0.0, doorY, 0.0)),
      "trim_left" := Box(Vec3(ts, th, z), Vec3(-x + ts, trimY, 0.0)),
      "trim_right" := Box(Vec3(ts, th, z), Vec3(x - ts, trimY, 0.0)),
      "trim_top" := Box(Vec3(x - 2.0 * ts, th, ts), Vec3(0.0, trimY, z - ts)),
      "trim_bottom" := Box(Vec3(x - 2.0 * ts, th, ts), Vec3(0.0, trimY, -z + ts))
    ]
  }

  /** The raised panel: the shaker layout, then `door_raised` set over it. */
  function RaisedGeoms(x: real, y: real, z: real, th: real, ts: real, gap: real): Layout
  {
    ShakerGeoms(x, y, z, th, ts)["door_raised" :=
      Box(Vec3(x - 2.0 * ts - 2.0 * gap, th, z - 2.0 * ts - 2.0 * gap), Vec3(0.0, -(y - th) / 2.0, 0.0))]
  }

  /** The divided window: its own copy of the shaker frame plus the two
      crossing trims. */
  function DividedWindowGeoms(x: real, y: real, z: real, th: real, ts: real): Layout
  {
    var doorTh := y - th;
    var doorY := th / 2.0;
    var trimY := -doorTh / 2.0;
    map[
      "door" := Box(Vec3(x - ts * 2.0, doorTh, z - ts * 2.0), Vec3(0.0, doorY, 0.0)),
      "trim_left" := Box(Vec3(ts, th, z), Vec3(-x + ts, trimY, 0.0)),
      "trim_right" := Box(Vec3(ts, th, z), Vec3(x - ts, trimY, 0.0)),
      "trim_top" := Box(Vec3(x - 2.0 * ts, th, ts), Vec3(0.0, trimY, z - ts)),
      "trim_bottom" := Box(Vec3(x - 2.0 * ts, th, ts), Vec3(0.0, trimY, -z + ts)),
      "vert_trim" := Box(Vec3(ts / 3.5, th, z), Vec3(0.0, trimY, 0.0)),
      "horiz_trim" := Box(Vec3(x - 2.0 * ts, th, ts / 3.5), Vec3(0.0, trimY, 0.0))
    ]
  }

  /** `_create_panel`: the size is unpacked into three values (a ValueError
      for any other length) and halved, as are the trim arguments. */
  function CreatePanel(size: seq<real>, style: Style): Result<Layout>
  {
    if |size| != 3 then Err(ValueError)
    else
      var x, y, z := size[0] / 2.0, size[1] / 2.0, size[2] / 2.0;
      match style
      case Slab => Ok(map["door" := Box(Vec3(x, y, z), Vec3(0.0, 0.0, 0.0))])
      case Shaker(trimTh, trimSize) => Ok(ShakerGeoms(x, y, z, trimTh / 2.0, trimSize / 2.0))
      case Raised(trimTh, trimSize, gap) => Ok(RaisedGeoms(x, y, z, trimTh / 2.0, trimSize / 2.0, gap / 2.0))
      case DividedWindow(trimTh, trimSize) => Ok(DividedWindowGeoms(x, y, z, trimTh / 2.0, trimSize / 2.0))
      case FullWindowed(trimTh, trimSize, _) => Ok(ShakerGeoms(x, y, z, trimTh / 2.0, trimSize / 2.0))
  }

  // ---------------------------------------------------------------------
  // Handle placement

  datatype Pads = Pads(vpad: real, hpad: real)

  /** The keyword arguments a handle is built with; their contents belong to
      the handle classes. */
  type HandleConfig = map<string, real>

  /** The padding each handle type keeps from the panel edges. */
  function HandlePads(handleType: string): Result<Pads>
  {
    if handleType == "bar" then Ok(Pads(0.20, 0.05))
    else if handleType == "knob" then Ok(Pads(0.05, 0.05))
    else if handleType == "boxed" then Ok(Pads(0.20, 0.05))
    else Err(NotImplementedError)
  }

  function HandleZ(vpos: Option<string>, panelH: real, vpad: real): Result<real>
  {
    if vpos == Some("bottom") then Ok(-(panelH / 2.0 - vpad))
    else if vpos == Some("top") then Ok(panelH / 2.0 - vpad)
    else if vpos == Some("center") then Ok(0.0)
    else Err(NotImplementedError)
  }

  function HandleX(hpos: Option<string>, panelW: real, hpad: real): Result<real>
  {
    if hpos == Some("left") then Ok(-(panelW / 2.0 - hpad))
    else if hpos == Some("right") then Ok(panelW / 2.0 - hpad)
    else if hpos == Some("center") then Ok(0.0)
    else Err(NotImplementedError)
  }

  /** `_add_handle`: the handle's position in the panel frame, or `None` when
      no handle is requested. The handle is built before it is placed, so a
      missing config (`**None`) fails before the positions are read, and the
      vertical position is read before the horizontal one. */
  function AddHandle(size: seq<real>, handleType: Option<string>, config: Option<HandleConfig>,
                     hpos: Option<string>, vpos: Option<string>): Result<Option<Vec3>>
    requires |size| == 3
  {
    if handleType.None? then Ok(None)
    else
      var pads :- HandlePads(handleType.value);
      if config.None? then Err(TypeError)
      else
        var z :- HandleZ(vpos, size[2], pads.vpad);
        var x :- HandleX(hpos, size[0], pads.hpad);
        Ok(Some(Vec3(x, 0.0, z)))
  }

  /** The constructor arguments of a cabinet panel. */
  datatype PanelArgs = PanelArgs(size: seq<real>, style: Style, handleType: Option<string>,
                                 handleConfig: Option<HandleConfig>, hpos: Option<string>, vpos: Option<string>)

  /** `handle_type="bar"` and no config or positions, as the signature says. */
  function DefaultArgs(size: seq<real>, style: Style): PanelArgs
  {
    PanelArgs(size, style, Some("bar"), None, None, None)
  }

  datatype Panel = Panel(layout: Layout, handle: Option<Vec3>)

  /** The constructor: the panel's geoms, then its handle. */
  function BuildPanel(args: PanelArgs): Result<Panel>
  {
    var layout :- CreatePanel(args.size, args.style);
    var handle :- AddHandle(args.size, args.handleType, args.handleConfig, args.hpos, args.vpos);
    Ok(Panel(layout, handle))
  }

  // ---------------------------------------------------------------------
  // Shelf

  datatype ShelfGeom = ShelfGeom(size: seq<real>, pos: seq<real>)

  /** The shelf's half-extents are its size halved element-wise; its centre
      is the given position, or the origin. */
  function ShelfPanel(size: seq<real>, pos: Option<seq<real>>): (r: ShelfGeom)
    ensures |r.size| == |size|
    ensures forall i :: 0 <= i < |size| ==> 2.0 * r.size[i] == size[i]
    ensures pos.None? ==> r.pos == [0.0, 0.0, 0.0]
    ensures pos.Some? ==> r.pos == pos.value
  {
    ShelfGeom(seq(|size|, i requires 0 <= i < |size| => size[i] / 2.0), if pos.Some? then pos.value else [0.0, 0.0, 0.0])
  }

  // ---------------------------------------------------------------------
  // Properties

  /** A size of any other length than three is refused before any geom is
      computed. */
  lemma SizeMustHaveThreeParts(args: PanelArgs)
    ensures BuildPanel(args).Err? <==>
              |args.size| != 3 ||
              AddHandle(args.size, args.handleType, args.handleConfig, args.hpos, args.vpos).Err?
    ensures |args.size| != 3 ==> BuildPanel(args) == Err(ValueError)
  {
  }

  /** The slab door fills the panel: its faces sit at half the size on
      every axis, around the origin. */
  lemma SlabFillsPanel(size: seq<real>)
    requires |size| == 3
    ensures CreatePanel(size, Slab).Ok?
    ensures var l := CreatePanel(size, Slab).value;
            && l.Keys == {"door"}
            && XLo(l["door"]) == -size[0] / 2.0 && XHi(l["door"]) == size[0] / 2.0
            && ZLo(l["door"]) == -size[2] / 2.0 && ZHi(l["door"]) == size[2] / 2.0
            && l["door"].pos.y - l["door"].size.y == -size[1] / 2.0
            && l["door"].pos.y + l["door"].size.y == size[1] / 2.0
  {
  }

  /** The shelf box spans exactly its size on every axis, centred on its
      position (the origin when none is given). */
  lemma ShelfFillsSize(size: seq<real>, pos: Option<seq<real>>)
    requires |size| == 3 && (pos.Some? ==> |pos.value| == 3)
    ensures var r := ShelfPanel(size, pos);
            var centre := if pos.Some? then pos.value else [0.0, 0.0, 0.0];
            && |r.size| == 3 && |r.pos| == 3
            && forall i :: 0 <= i < 3 ==>
                 && (r.pos[i] + r.size[i]) - (r.pos[i] - r.size[i]) == size[i]
                 && ((r.pos[i] + r.size[i]) + (r.pos[i] - r.size[i])) / 2.0 == centre[i]
  {
  }

  const FrameKeys: set<string> := {"door", "trim_left", "trim_right", "trim_top", "trim_bottom"}

  /** The edges of the shaker frame: the side trims reach the panel's side
      edges and span its height, the top and bottom trims reach its top and
      bottom edges, and the door and the top and bottom trims end exactly at
      the side trims' inner edges. */
  lemma ShakerEdges(x: real, y: real, z: real, th: real, ts: real)
    ensures var l := ShakerGeoms(x, y, z, th, ts);
            && l.Keys == FrameKeys
            && XLo(l["trim_left"]) == -x && XHi(l["trim_right"]) == x
            && ZLo(l["trim_left"]) == -z && ZHi(l["trim_left"]) == z
            && ZLo(l["trim_right"]) == -z && ZHi(l["trim_right"]) == z
            && ZHi(l["trim_top"]) == z && ZLo(l["trim_bottom"]) == -z
            && XLo(l["door"]) == XHi(l["trim_left"]) && XHi(l["door"]) == XLo(l["trim_right"])
            && XLo(l["trim_top"]) == XHi(l["trim_left"]) && XHi(l["trim_top"]) == XLo(l["trim_right"])
            && XLo(l["trim_bottom"]) == XHi(l["trim_left"]) && XHi(l["trim_bottom"]) == XLo(l["trim_right"])
            && ZHi(l["door"]) == ZLo(l["trim_top"]) && ZLo(l["door"]) == ZHi(l["trim_bottom"])
  {
  }

  /** Two boxes whose interiors do not meet when seen from the front. */
  predicate Apart(a: Box, b: Box)
  {
    XHi(a) <= XLo(b) || XHi(b) <= XLo(a) || ZHi(a) <= ZLo(b) || ZHi(b) <= ZLo(a)
  }

  predicate Covers(b: Box, px: real, pz: real)
  {
    XLo(b) <= px <= XHi(b) && ZLo(b) <= pz <= ZHi(b)
  }

  /** The point `(px, pz)` of the front face of a panel of half-extents `x`
      and `z`. */
  predicate OnFace(x: real, z: real, px: real, pz: real)
  {
    -x <= px <= x && -z <= pz <= z
  }

  ghost predicate CoveredBy(l: Layout, px: real, pz: real)
  {
    exists k :: k in l && Covers(l[k], px, pz)
  }

  /** Seen from the front, when the trims fit the panel, the door and the
      four trims tile the panel face: every point of the face lies in one of
      them, and no two of them overlap. */
  lemma ShakerTilesFace(x: real, y: real, z: real, th: real, ts: real)
    requires 0.0 <= ts && 2.0 * ts <= x && 2.0 * ts <= z
    ensures var l := ShakerGeoms(x, y, z, th, ts);
            forall px, pz :: OnFace(x, z, px, pz) ==> CoveredBy(l, px, pz)
    ensures var l := ShakerGeoms(x, y, z, th, ts);
            forall a, b :: a in l && b in l && a != b ==> Apart(l[a], l[b])
  {
    ShakerCovers(x, y, z, th, ts);
    ShakerPiecesApart(x, y, z, th, ts);
  }

  lemma ShakerPiecesApart(x: real, y: real, z: real, th: real, ts: real)
    requires 0.0 <= ts && 2.0 * ts <= x && 2.0 * ts <= z
    ensures var l := ShakerGeoms(x, y, z, th, ts);
            forall a, b :: a in l && b in l && a != b ==> Apart(l[a], l[b])
  {
    ShakerEdges(x, y, z, th, ts);
  }

  lemma ShakerCovers(x: real, y: real, z: real, th: real, ts: real)
    requires 0.0 <= ts && 2.0 * ts <= x && 2.0 * ts <= z
    ensures var l := ShakerGeoms(x, y, z, th, ts);
            forall px, pz :: OnFace(x, z, px, pz) ==> CoveredBy(l, px, pz)
  {
    var l := ShakerGeoms(x, y, z, th, ts);
    forall px, pz | OnFace(x, z, px, pz)
      ensures CoveredBy(l, px, pz)
    {
      if px <= -x + 2.0 * ts {
        assert Covers(l["trim_left"], px, pz);
      } else if px >= x - 2.0 * ts {
        assert Covers(l["trim_right"], px, pz);
      } else if pz >= z - 2.0 * ts {
        assert Covers(l["trim_top"], px, pz);
      } else if pz <= -z + 2.0 * ts {
        assert Covers(l["trim_bottom"], px, pz);
      } else {
        assert Covers(l["door"], px, pz);
      }
    }
  }

  /** The raised panel keeps the shaker geoms and adds a raised door whose
      edges stand back from the trims' inner edges by the raised gap, at the
      trim thickness. */
  lemma RaisedKeepsShaker(x: real, y: real, z: real, th: real, ts: real, gap: real)
    ensures var s := ShakerGeoms(x, y, z, th, ts);
            var l := RaisedGeoms(x, y, z, th, ts, gap);
            && l.Keys == FrameKeys + {"door_raised"}
            && (forall k :: k in s ==> l[k] == s[k])
            && XHi(l["door_raised"]) == XLo(l["trim_right"]) - 2.0 * gap
            && XLo(l["door_raised"]) == XHi(l["trim_left"]) + 2.0 * gap
            && ZHi(l["door_raised"]) == ZLo(l["trim_top"]) - 2.0 * gap
            && ZLo(l["door_raised"]) == ZHi(l["trim_bottom"]) + 2.0 * gap
            && l["door_raised"].size.y == th
            && l["door_raised"].pos == Vec3(0.0, -(y - th) / 2.0, 0.0)
            && l["door_raised"].pos.y == l["trim_left"].pos.y
  {
  }

  /** The divided window has the shaker frame, a vertical bar spanning the
      panel's height and a horizontal bar spanning the opening between the
      side trims, both a 3.5th of the trim size and centred on the panel. */
  lemma DividedWindowFrame(x: real, y: real, z: real, th: real, ts: real)
    ensures var s := ShakerGeoms(x, y, z, th, ts);
            var l := DividedWindowGeoms(x, y, z, th, ts);
            && l.Keys == FrameKeys + {"vert_trim", "horiz_trim"}
            && (forall k :: k in s ==> l[k] == s[k])
            && ZLo(l["vert_trim"]) == -z && ZHi(l["vert_trim"]) == z
            && l["vert_trim"].size.x == ts / 3.5 && l["horiz_trim"].size.z == ts / 3.5
            && XLo(l["horiz_trim"]) == XHi(l["trim_left"]) && XHi(l["horiz_trim"]) == XLo(l["trim_right"])
            && l["vert_trim"].pos.x == 0.0 && l["vert_trim"].pos.z == 0.0
            && l["horiz_trim"].pos.x == 0.0 && l["horiz_trim"].pos.z == 0.0
            && l["vert_trim"].pos.y == l["trim_left"].pos.y && l["horiz_trim"].pos.y == l["trim_left"].pos.y
  {
  }

  /** The full-windowed panel lays out its geoms as the shaker panel does. */
  lemma FullWindowedIsShaker(size: seq<real>, trimTh: real, trimSize: real, opacity: real)
    ensures CreatePanel(size, FullWindowed(trimTh, trimSize, opacity)) == CreatePanel(size, Shaker(trimTh, trimSize))
  {
  }

  /** The padding table: three handle types, anything else unsupported. */
  lemma PadsTable(t: string)
    ensures HandlePads(t).Ok? <==> t in {"bar", "knob", "boxed"}
    ensures HandlePads(t).Ok? ==> HandlePads(t).value.hpad == 0.05
    ensures HandlePads(t).Ok? ==> (HandlePads(t).value.vpad == 0.05 <==> t == "knob")
    ensures HandlePads("bar") == Ok(Pads(0.20, 0.05))
    ensures HandlePads("knob") == Ok(Pads(0.05, 0.05))
    ensures HandlePads("boxed") == Ok(Pads(0.20, 0.05))
  {
  }

  /** The outcome of `_add_handle`: no handle without a type; an unknown type
      is reported first, then a missing config; with a config, a position
      outside the named ones on either axis is a NotImplementedError. */
  lemma HandleErrors(size: seq<real>, t: Option<string>, config: Option<HandleConfig>,
                     hpos: Option<string>, vpos: Option<string>)
    requires |size| == 3
    ensures t.None? ==> AddHandle(size, t, config, hpos, vpos) == Ok(None)
    ensures t.Some? && t.value !in {"bar", "knob", "boxed"} ==>
              AddHandle(size, t, config, hpos, vpos) == Err(NotImplementedError)
    ensures t.Some? && t.value in {"bar", "knob", "boxed"} && config.None? ==>
              AddHandle(size, t, config, hpos, vpos) == Err(TypeError)
    ensures t.Some? && config.Some? &&
            (vpos !in {Some("top"), Some("bottom"), Some("center")} || hpos !in {Some("left"), Some("right"), Some("center")}) ==>
              AddHandle(size, t, config, hpos, vpos) == Err(NotImplementedError)
    ensures t.Some? && t.value in {"bar", "knob", "boxed"} && config.Some? &&
            vpos in {Some("top"), Some("bottom"), Some("center")} && hpos in {Some("left"), Some("right"), Some("center")} ==>
              AddHandle(size, t, config, hpos, vpos).Ok? && AddHandle(size, t, config, hpos, vpos).value.Some?
  {
  }

  /** Top and bottom, and left and right, are mirror images; centre is the
      axis; the handle sits in the panel's plane; a handle at an edge is its
      pad away from that edge. */
  lemma HandleMirror(size: seq<real>, t: string, config: HandleConfig, hpos: Option<string>, vpos: Option<string>)
    requires |size| == 3
    requires AddHandle(size, Some(t), Some(config), hpos, vpos).Ok?
    ensures var p := AddHandle(size, Some(t), Some(config), hpos, vpos).value.value;
            && p.y == 0.0
            && AddHandle(size, Some(t), Some(config), hpos, Some("top")).Ok?
            && AddHandle(size, Some(t), Some(config), hpos, Some("bottom")).Ok?
            && AddHandle(size, Some(t), Some(config), hpos, Some("top")).value.value.z
               == -AddHandle(size, Some(t), Some(config), hpos, Some("bottom")).value.value.z
            && AddHandle(size, Some(t), Some(config), Some("right"), vpos).Ok?
            && AddHandle(size, Some(t), Some(config), Some("left"), vpos).Ok?
            && AddHandle(size, Some(t), Some(config), Some("right"), vpos).value.value.x
               == -AddHandle(size, Some(t), Some(config), Some("left"), vpos).value.value.x
            && (vpos == Some("center") ==> p.z == 0.0)
            && (hpos == Some("center") ==> p.x == 0.0)
    ensures HandlePads(t).Ok?
    ensures var p := AddHandle(size, Some(t), Some(config), hpos, vpos).value.value;
            var pads := HandlePads(t).value;
            && (vpos == Some("top") ==> size[2] / 2.0 - p.z == pads.vpad)
            && (vpos == Some("bottom") ==> p.z + size[2] / 2.0 == pads.vpad)
            && (hpos == Some("right") ==> size[0] / 2.0 - p.x == pads.hpad)
            && (hpos == Some("left") ==> p.x + size[0] / 2.0 == pads.hpad)
  {
  }

  /** On a panel at least two pads wide and high, a handle at an edge stays
      inside the panel, exactly its pad away from that edge. */
  lemma HandleInset(size: seq<real>, t: string, config: HandleConfig, hpos: Option<string>, vpos: Option<string>)
    requires |size| == 3
    requires AddHandle(size, Some(t), Some(config), hpos, vpos).Ok?
    requires size[0] >= 2.0 * HandlePads(t).value.hpad && size[2] >= 2.0 * HandlePads(t).value.vpad
    ensures var p := AddHandle(size, Some(t), Some(config), hpos, vpos).value.value;
            var pads := HandlePads(t).value;
            && -size[0] / 2.0 <= p.x <= size[0] / 2.0
            && -size[2] / 2.0 <= p.z <= size[2] / 2.0
            && (vpos == Some("top") ==> size[2] / 2.0 - p.z == pads.vpad)
            && (vpos == Some("bottom") ==> p.z + size[2] / 2.0 == pads.vpad)
            && (hpos == Some("right") ==> size[0] / 2.0 - p.x == pads.hpad)
            && (hpos == Some("left") ==> p.x + size[0] / 2.0 == pads.hpad)
  {
  }
}
