/** `load_annotation`: the annotation file's polygons, keyed by a running
    polygon number. A GeoJSON export (`.geojson` or `.txt`) gives the outer
    ring of every feature, numbered in order. A CAMELYON17 XML file is walked
    group by group; inside a group only the annotations whose `Type` is
    `"Polygon"` count, numbered from 0 again in every group, so a later group
    overwrites the keys of an earlier one. Any other suffix gives `None`.
    Reading the file is not modelled: its parsed content is an input. */
module Annotations {
  import opened Wrappers
  import opened Names
  import TileGrid

  /** A polygon vertex in level-0 slide coordinates. */
  datatype Point = Point(x: real, y: real)

  type Polygon = seq<Point>

  /** Why loading raises: a GeoJSON feature without a ring, an XML coordinate
      without an `X` or `Y` attribute, or an attribute that is not a number. */
  datatype AnnotationError = MissingRing | MissingAttribute | NotANumber

  /** A GeoJSON feature: the rings of its geometry's `coordinates`. */
  datatype Feature = Feature(coordinates: seq<Polygon>)

  /** An XML element: its attributes and its children, in document order. */
  datatype Element = Element(attrib: map<string, string>, children: seq<Element>)

  /** The GeoJSON branch: feature `k`'s first ring under key `k`; a feature
      without a ring raises. */
  method JsonPolygons(features: seq<Feature>) returns (r: Result<map<nat, Polygon>, AnnotationError>)
    ensures r.Failure? <==> exists k :: 0 <= k < |features| && features[k].coordinates == []
    ensures r.Failure? ==> r.error == MissingRing
    ensures r.Success? ==> r.value == map k: nat | k < |features| :: features[k].coordinates[0]
  {
    var annotationDict: map<nat, Polygon> := map[];
    for polygonNb := 0 to |features|
      invariant forall k :: 0 <= k < polygonNb ==> features[k].coordinates != []
      invariant annotationDict == map k: nat | k < polygonNb :: features[k].coordinates[0]
    {
      if features[polygonNb].coordinates == [] {
        return Failure(MissingRing);
      }
      annotationDict := annotationDict[polygonNb := features[polygonNb].coordinates[0]];
    }
    return Success(annotationDict);
  }

  /** `[float(coord.attrib["X"]), float(coord.attrib["Y"])]`, with `parse`
      standing for `float` on an attribute's text. */
  function ParsePoint(coord: Element, parse: string -> Option<real>): Result<Point, AnnotationError>
  {
    if "X" !in coord.attrib then Failure(MissingAttribute)
    else if parse(coord.attrib["X"]).None? then Failure(NotANumber)
    else if "Y" !in coord.attrib then Failure(MissingAttribute)
    else if parse(coord.attrib["Y"]).None? then Failure(NotANumber)
    else Success(Point(parse(coord.attrib["X"]).value, parse(coord.attrib["Y"]).value))
  }

  /** The coordinate elements under a polygon's children, in document order. */
  function Coords(containers: seq<Element>): seq<Element>
  {
    if containers == [] then [] else containers[0].children + Coords(containers[1..])
  }

  /** The points of the coordinates `cs`, in order; the first one that does
      not parse raises. */
  function ParseAll(cs: seq<Element>, parse: string -> Option<real>): Result<seq<Point>, AnnotationError>
  {
    if cs == [] then Success([])
    else
      var p := ParsePoint(cs[0], parse);
      if p.Failure? then Failure(p.error)
      else
        var rest := ParseAll(cs[1..], parse);
        if rest.Failure? then rest else Success([p.value] + rest.value)
  }

  /** `acc` followed by the values of a result, or its failure. */
  function Prepend<T>(acc: seq<T>, r: Result<seq<T>, AnnotationError>): Result<seq<T>, AnnotationError>
  {
    if r.Success? then Success(acc + r.value) else r
  }

  /** An annotation that `load_annotation` keeps. */
  predicate IsPolygon(sub: Element)
  {
    "Type" in sub.attrib && sub.attrib["Type"] == "Polygon"
  }

  /** The polygon of an annotation: the points of every coordinate under its
      children. */
  function PolygonOf(e: Element, parse: string -> Option<real>): Result<Polygon, AnnotationError>
  {
    ParseAll(Coords(e.children), parse)
  }

  /** The polygons of one group's annotations, in order. */
  function GroupPolygons(subs: seq<Element>, parse: string -> Option<real>)
    : Result<seq<Polygon>, AnnotationError>
  {
    if subs == [] then Success([])
    else if !IsPolygon(subs[0]) then GroupPolygons(subs[1..], parse)
    else
      var poly := PolygonOf(subs[0], parse);
      if poly.Failure? then Failure(poly.error)
      else
        var rest := GroupPolygons(subs[1..], parse);
        if rest.Failure? then rest else Success([poly.value] + rest.value)
  }

  /** The polygons of every group, group by group. */
  function Groups(elems: seq<Element>, parse: string -> Option<real>)
    : Result<seq<seq<Polygon>>, AnnotationError>
  {
    if elems == [] then Success([])
    else
      var g := GroupPolygons(elems[0].children, parse);
      if g.Failure? then Failure(g.error)
      else
        var rest := Groups(elems[1..], parse);
        if rest.Failure? then rest else Success([g.value] + rest.value)
  }

  /** The dict after the groups `gs`: each group writes its polygons under
      keys `0, 1, ...` over what the earlier groups wrote. */
  function Overlay(gs: seq<seq<Polygon>>): map<nat, Polygon>
  {
    if gs == [] then map[] else Overlay(gs[..|gs| - 1]) + TileGrid.AsMap(gs[|gs| - 1])
  }

  /** The XML branch of `load_annotation`. */
  function XmlAnnotations(root: Element, parse: string -> Option<real>)
    : Result<map<nat, Polygon>, AnnotationError>
  {
    var gs := Groups(root.children, parse);
    if gs.Success? then Success(Overlay(gs.value)) else Failure(gs.error)
  }

  /** Helper: prepending nothing. */
  lemma PrependNil<T>(r: Result<seq<T>, AnnotationError>)
    ensures Prepend([], r) == r
  {
    if r.Success? {
      assert [] + r.value == r.value;
    }
  }

  /** Helper: moving one element from the result into the accumulator. */
  lemma PrependCons<T>(acc: seq<T>, x: T, r: Result<seq<T>, AnnotationError>)
    ensures Prepend(acc, if r.Success? then Success([x] + r.value) else r)
         == Prepend(acc + [x], r)
  {
    if r.Success? {
      assert acc + ([x] + r.value) == acc + [x] + r.value;
    }
  }

  lemma CoordsStep(containers: seq<Element>, k: nat)
    requires k < |containers|
    ensures Coords(containers[k..]) == containers[k].children + Coords(containers[k + 1..])
  {
    assert containers[k..][1..] == containers[k + 1..];
  }

  /** Helper: prepending to an empty result. */
  lemma PrependDone<T>(acc: seq<T>)
    ensures Prepend(acc, Success([])) == Success(acc)
  {
    assert acc + [] == acc;
  }

  lemma SliceCons<T>(cs: seq<T>, m: nat, later: seq<T>)
    requires m < |cs|
    ensures cs[m..] + later == [cs[m]] + (cs[m + 1..] + later)
  {
  }

  lemma ParseAllCons(coord: Element, rest: seq<Element>, parse: string -> Option<real>)
    ensures var p, r := ParsePoint(coord, parse), ParseAll(rest, parse);
      ParseAll([coord] + rest, parse)
      == if p.Failure? then Failure(p.error) else if r.Failure? then r else Success([p.value] + r.value)
  {
    assert ([coord] + rest)[0] == coord && ([coord] + rest)[1..] == rest;
  }

  /** The innermost loop: the points of the coordinates `cs`, appended to
      `polygon_list` in order; the coordinates `later` of the polygon's
      following children come after them. */
  method AppendPoints(cs: seq<Element>, ghost later: seq<Element>, polygonList0: seq<Point>,
                      parse: string -> Option<real>)
    returns (r: Result<seq<Point>, AnnotationError>)
    ensures r.Failure? ==> Prepend(polygonList0, ParseAll(cs + later, parse)) == r
    ensures r.Success? ==>
              Prepend(polygonList0, ParseAll(cs + later, parse)) == Prepend(r.value, ParseAll(later, parse))
  {
    ghost var full := Prepend(polygonList0, ParseAll(cs + later, parse));
    var polygonList := polygonList0;
    assert cs[0..] == cs;
    var m := 0;
    while m < |cs|
      invariant 0 <= m <= |cs|
      invariant Prepend(polygonList, ParseAll(cs[m..] + later, parse)) == full
    {
      var coord := cs[m];
      ghost var rest := cs[m + 1..] + later;
      SliceCons(cs, m, later);
      ParseAllCons(coord, rest, parse);
      var p := ParsePoint(coord, parse);
      if p.Failure? {
        return Failure(p.error);
      }
      PrependCons(polygonList, p.value, ParseAll(rest, parse));
      polygonList := polygonList + [p.value];
      m := m + 1;
    }
    assert cs[m..] + later == later;
    return Success(polygonList);
  }

  /** The points of one polygon: for every child of the annotation, every
      coordinate under it, appended to `polygon_list` in order. */
  method PolygonPoints(sub: Element, parse: string -> Option<real>)
    returns (r: Result<seq<Point>, AnnotationError>)
    ensures r == PolygonOf(sub, parse)
  {
    ghost var full := ParseAll(Coords(sub.children), parse);
    var polygonList: seq<Point> := [];
    assert sub.children[0..] == sub.children;
    PrependNil(full);
    var k := 0;
    while k < |sub.children|
      invariant 0 <= k <= |sub.children|
      invariant Prepend(polygonList, ParseAll(Coords(sub.children[k..]), parse)) == full
    {
      CoordsStep(sub.children, k);
      var points := AppendPoints(sub.children[k].children, Coords(sub.children[k + 1..]),
                                 polygonList, parse);
      if points.Failure? {
        return points;
      }
      polygonList := points.value;
      k := k + 1;
    }
    assert sub.children[k..] == [];
    PrependDone(polygonList);
    return Success(polygonList);
  }

  lemma AppendNilMap(m: map<nat, Polygon>)
    ensures m + TileGrid.AsMap([]) == m
  {
  }

  lemma OverlayAppend(gs: seq<seq<Polygon>>, g: seq<Polygon>)
    ensures Overlay(gs + [g]) == Overlay(gs) + TileGrid.AsMap(g)
  {
    assert (gs + [g])[..|gs|] == gs;
  }

  lemma OverlayWrite(m: map<nat, Polygon>, g: seq<Polygon>, poly: Polygon)
    ensures (m + TileGrid.AsMap(g))[|g| := poly] == m + TileGrid.AsMap(g + [poly])
  {
    TileGrid.AsMapAppend(g, poly);
  }

  /** The XML branch: for every top-level element `polygon_nb` restarts at 0,
      and every annotation of type `"Polygon"` is written under the next
      number. */
  method XmlPolygons(root: Element, parse: string -> Option<real>)
    returns (r: Result<map<nat, Polygon>, AnnotationError>)
    ensures r == XmlAnnotations(root, parse)
  {
    var elems := root.children;
    var annotationDict: map<nat, Polygon> := map[];
    ghost var done: seq<seq<Polygon>> := [];
    assert elems[0..] == elems;
    PrependNil(Groups(elems, parse));
    var k := 0;
    while k < |elems|
      invariant 0 <= k <= |elems|
      invariant Prepend(done, Groups(elems[k..], parse)) == Groups(elems, parse)
      invariant annotationDict == Overlay(done)
    {
      var elem := elems[k];
      assert elems[k..][0] == elem && elems[k..][1..] == elems[k + 1..];
      var polygonNb := 0;
      ghost var group: seq<Polygon> := [];
      assert elem.children[0..] == elem.children;
      PrependNil(GroupPolygons(elem.children, parse));
      AppendNilMap(Overlay(done));
      var m := 0;
      while m < |elem.children|
        invariant 0 <= m <= |elem.children|
        invariant Prepend(group, GroupPolygons(elem.children[m..], parse))
               == GroupPolygons(elem.children, parse)
        invariant polygonNb == |group|
        invariant annotationDict == Overlay(done) + TileGrid.AsMap(group)
      {
        var subelem := elem.children[m];
        assert elem.children[m..][0] == subelem && elem.children[m..][1..] == elem.children[m + 1..];
        if IsPolygon(subelem) {
          var poly := PolygonPoints(subelem, parse);
          if poly.Failure? {
            return Failure(poly.error);
          }
          PrependCons(group, poly.value, GroupPolygons(elem.children[m + 1..], parse));
          OverlayWrite(Overlay(done), group, poly.value);
          annotationDict := annotationDict[polygonNb := poly.value];
          group := group + [poly.value];
          polygonNb := polygonNb + 1;
        }
        m := m + 1;
      }
      assert elem.children[m..] == [];
      PrependDone(group);
      PrependCons(done, group, Groups(elems[k + 1..], parse));
      OverlayAppend(done, group);
      done := done + [group];
      k := k + 1;
    }
    assert elems[k..] == [];
    PrependDone(done);
    return Success(annotationDict);
  }

  /** Every coordinate parses exactly when the polygon does, and then the
      polygon is their points in order. */
  lemma {:induction false} ParseAllSpec(cs: seq<Element>, parse: string -> Option<real>)
    ensures ParseAll(cs, parse).Success? <==>
              forall i :: 0 <= i < |cs| ==> ParsePoint(cs[i], parse).Success?
    ensures ParseAll(cs, parse).Success? ==>
              |ParseAll(cs, parse).value| == |cs|
              && forall i :: 0 <= i < |cs| ==> ParseAll(cs, parse).value[i] == ParsePoint(cs[i], parse).value
  {
    if cs != [] {
      ParseAllSpec(cs[1..], parse);
      assert forall i :: 1 <= i < |cs| ==> cs[i] == cs[1..][i - 1];
    }
  }

  /** The annotations of a group that `load_annotation` keeps, in order. */
  function PolygonElements(subs: seq<Element>): seq<Element>
  {
    if subs == [] then []
    else if IsPolygon(subs[0]) then [subs[0]] + PolygonElements(subs[1..])
    else PolygonElements(subs[1..])
  }

  lemma GroupPolygonsStep(subs: seq<Element>, parse: string -> Option<real>)
    requires subs != [] && IsPolygon(subs[0])
    ensures var poly, r := PolygonOf(subs[0], parse), GroupPolygons(subs[1..], parse);
      GroupPolygons(subs, parse)
      == if poly.Failure? then Failure(poly.error)
         else if r.Failure? then r else Success([poly.value] + r.value)
  {
  }

  /** Every annotation of `ps` parses. */
  predicate AllParse(ps: seq<Element>, parse: string -> Option<real>)
  {
    forall i :: 0 <= i < |ps| ==> PolygonOf(ps[i], parse).Success?
  }

  /** A group's annotations parse exactly when each of its `"Polygon"`
      annotations does; annotations of any other type are not read. */
  lemma {:induction false} GroupPolygonsOk(subs: seq<Element>, parse: string -> Option<real>)
    ensures GroupPolygons(subs, parse).Success? <==> AllParse(PolygonElements(subs), parse)
  {
    if subs != [] {
      var tail := subs[1..];
      var rest := PolygonElements(tail);
      GroupPolygonsOk(tail, parse);
      if IsPolygon(subs[0]) {
        var ps := [subs[0]] + rest;
        assert PolygonElements(subs) == ps;
        GroupPolygonsStep(subs, parse);
        if PolygonOf(subs[0], parse).Failure? {
          assert ps[0] == subs[0];
        } else if GroupPolygons(subs[1..], parse).Failure? {
          var i :| 0 <= i < |rest| && PolygonOf(rest[i], parse).Failure?;
          assert ps[i + 1] == rest[i];
        } else {
          assert forall k :: 0 <= k < |rest| ==> PolygonOf(rest[k], parse).Success?;
          forall i | 0 <= i < |ps| ensures PolygonOf(ps[i], parse).Success? {
            if i > 0 {
              assert ps[i] == rest[i - 1];
            }
          }
        }
      } else {
        assert PolygonElements(subs) == rest;
        assert GroupPolygons(subs, parse) == GroupPolygons(subs[1..], parse);
      }
    }
  }

  /** `v` holds the polygons of the annotations `ps`, one each, in order. */
  predicate PolygonsOf(v: seq<Polygon>, ps: seq<Element>, parse: string -> Option<real>)
  {
    |v| == |ps|
    && forall i :: 0 <= i < |ps| ==> PolygonOf(ps[i], parse).Success? && v[i] == PolygonOf(ps[i], parse).value
  }

  lemma PolygonsOfCons(e: Element, v: seq<Polygon>, ps: seq<Element>, parse: string -> Option<real>)
    requires PolygonsOf(v, ps, parse) && PolygonOf(e, parse).Success?
    ensures PolygonsOf([PolygonOf(e, parse).value] + v, [e] + ps, parse)
  {
    var v', ps' := [PolygonOf(e, parse).value] + v, [e] + ps;
    forall i | 1 <= i < |ps'|
      ensures PolygonOf(ps'[i], parse).Success? && v'[i] == PolygonOf(ps'[i], parse).value
    {
      assert ps'[i] == ps[i - 1] && v'[i] == v[i - 1];
    }
  }

  /** A group's polygons are those of its `"Polygon"` annotations, one each,
      in order. */
  lemma {:induction false} GroupPolygonsValues(subs: seq<Element>, parse: string -> Option<real>)
    requires GroupPolygons(subs, parse).Success?
    ensures PolygonsOf(GroupPolygons(subs, parse).value, PolygonElements(subs), parse)
  {
    if subs != [] {
      var tail := subs[1..];
      if IsPolygon(subs[0]) {
        GroupPolygonsStep(subs, parse);
        GroupPolygonsValues(tail, parse);
        PolygonsOfCons(subs[0], GroupPolygons(tail, parse).value, PolygonElements(tail), parse);
      } else {
        GroupPolygonsValues(tail, parse);
      }
    }
  }

  /** A key is in the dict exactly when some group has more polygons than
      the key. */
  lemma {:induction false} OverlayKeys(gs: seq<seq<Polygon>>, k: nat)
    ensures k in Overlay(gs) <==> exists g :: 0 <= g < |gs| && k < |gs[g]|
  {
    if gs != [] {
      var front := gs[..|gs| - 1];
      OverlayKeys(front, k);
      assert forall g :: 0 <= g < |front| ==> front[g] == gs[g];
    }
  }

  /** Later groups overwrite: under key `k` is the `k`-th polygon of the last
      group that has one. */
  lemma {:induction false} OverlayLastWins(gs: seq<seq<Polygon>>, g: nat, k: nat)
    requires g < |gs| && k < |gs[g]|
    requires forall h :: g < h < |gs| ==> |gs[h]| <= k
    ensures k in Overlay(gs) && Overlay(gs)[k] == gs[g][k]
  {
    var front := gs[..|gs| - 1];
    if g < |gs| - 1 {
      assert front[g] == gs[g];
      assert forall h :: g < h < |front| ==> front[h] == gs[h];
      OverlayLastWins(front, g, k);
    }
  }

  /** Two groups with one polygon each: the dict keeps only the second
      group's polygon, under key 0. */
  lemma SecondGroupOverwrites(p: Polygon, q: Polygon)
    ensures Overlay([[p], [q]]) == map[0 := q]
  {
    assert [[p]][..0] == [];
    assert TileGrid.AsMap([p]) == map[0 := p];
    assert Overlay([[p]]) == map[0 := p];
    assert [[p], [q]][..1] == [[p]];
    assert TileGrid.AsMap([q]) == map[0 := q];
    assert Overlay([[p], [q]]) == map[0 := p] + map[0 := q];
  }

  /** `load_annotation`: the suffix of the file name picks the branch; any
      other suffix returns `None`. The file's parsed content is given as
      `features` (JSON) and `root` (XML). */
  method LoadAnnotation(path: string, features: seq<Feature>, root: Element,
                        parse: string -> Option<real>)
    returns (r: Result<Option<map<nat, Polygon>>, AnnotationError>)
    ensures var suffix := Suffix(BaseName(path));
      && (suffix !in {".geojson", ".txt", ".xml"} ==> r == Success(None))
      && (suffix == ".xml" ==>
            r == (var x := XmlAnnotations(root, parse);
                  if x.Success? then Success(Some(x.value)) else Failure(x.error)))
      && (suffix in {".geojson", ".txt"} ==>
            && (r.Failure? <==> exists k :: 0 <= k < |features| && features[k].coordinates == [])
            && (r.Success? ==> r.value == Some(map k: nat | k < |features| :: features[k].coordinates[0])))
  {
    var fileFormat := Suffix(BaseName(path));
    var d: Result<map<nat, Polygon>, AnnotationError>;
    if fileFormat == ".geojson" || fileFormat == ".txt" {
      d := JsonPolygons(features);
    } else if fileFormat == ".xml" {
      d := XmlPolygons(root, parse);
    } else {
      return Success(None);
    }
    if d.Failure? {
      return Failure(d.error);
    }
    return Success(Some(d.value));
  }
}
