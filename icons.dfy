/// The map-marker icon (lib/halal-icons.tsx, `getHalalIconSvg`): an SVG
/// string assembled from the per-status path and style tables, and a reader
/// for exactly the markup it produces, used to state what the string holds.
module Icons {
  import opened Strings
  import opened Types

  /** `HALAL_ICON_PATHS`: SVG path data, several paths separated by `|`; for
      muslim_friendly the points of a polygon. The longer entries are written
      as a concatenation of named pieces. */
  function IconPath(s: HalalStatus): string
  {
    match s
    case Halal => "M20 6 9 17l-5-5"
    case PartiallyHalal => "M12 2a10 10 0 0 1 0 20V2z"
    case MuslimFriendly => MuslimFriendlyPath1 + MuslimFriendlyPath2 + MuslimFriendlyPath3
    case Seafood => SeafoodPath1 + SeafoodPath2 + SeafoodPath3 + SeafoodPath4
    case Vegetarian => VegetarianPath1 + VegetarianPath2
    case Masjid => MasjidPath
    case Mart => MartPath1 + MartPath2
    case Accommodation => AccommodationPath
  }

  const MuslimFriendlyPath1: string := "12,2 15.09,8.26 22,9.27 17,14.14 "
  const MuslimFriendlyPath2: string := "18.18,21.02 12,17.77 5.82,21.02 "
  const MuslimFriendlyPath3: string := "7,14.14 2,9.27 8.91,8.26"
  const SeafoodPath1: string :=
    "M6.5 12c.94-3.46 4.94-6 8.5-6 " + "3.56 0 6.06 2.54 7 6-.94 "
  const SeafoodPath2: string :=
    "3.47-3.44 6-7 6-3.56 " + "0-7.56-2.53-8.5-6Z|M18 12v.5|" + "M16 "
  const SeafoodPath3: string :=
    "17.93a9.77 9.77 0 0 1-3 .07|" + "M7 10.67C7 8 5.58 5.97 2.73 "
  const SeafoodPath4: string :=
    "5.5c-1 1.5-1 5 .23 6.5-1.24 " + "1.5-1.24 5 .23 6.5C5.58 18.03 " + "7 16 7 13.33"
  const VegetarianPath1: string :=
    "M11 20A7 7 0 0 1 9.8 6.1C15.5 " + "5 17 4.48 19 2c1 2 2 4.18 2 8 "
  const VegetarianPath2: string :=
    "0 5.5-4.78 10-10 10Z|M2 " + "21c0-3 1.85-5.36 5.08-6C9.5 " + "14.52 12 13 13 12"
  const MasjidPath: string :=
    "M12 2L8.5 9H4l3 " + "6v5h10v-5l3-6h-4.5L12 2z|M12 " + "6v3"
  const MartPath1: string :=
    "M6 2L3 6v14a2 2 0 0 0 2 " + "2h14a2 2 0 0 0 2-2V6l-3-4z|M3 " + "6h18|"
  const MartPath2: string := "M16 10a4 4 0 0 1-8 0"
  const AccommodationPath: string :=
    "M3 21V8a2 2 0 0 1 2-2h14a2 2 " + "0 0 1 2 2v13|M9 21v-6h6v6|M3 " + "11h18"

  /** An entry of `ICON_STYLES`; a missing `isPolygon` reads as false. */
  datatype IconStyle = IconStyle(fill: bool, strokeWidth: nat, isPolygon: bool)

  function Style(s: HalalStatus): IconStyle
  {
    match s
    case Halal => IconStyle(false, 3, false)
    case PartiallyHalal => IconStyle(true, 2, false)
    case MuslimFriendly => IconStyle(true, 1, true)
    case Seafood => IconStyle(false, 2, false)
    case Vegetarian => IconStyle(false, 2, false)
    case Masjid => IconStyle(false, 2, false)
    case Mart => IconStyle(false, 2, false)
    case Accommodation => IconStyle(false, 2, false)
  }

  /** Only muslim_friendly is drawn as a polygon. */
  lemma PolygonOnlyMuslimFriendly(s: HalalStatus)
    ensures Style(s).isPolygon <==> s == MuslimFriendly
  {
  }

  // ---------------------------------------------------------------------------
  // The markup

  const SvgStart: string := "<svg xmlns=\"http://www.w3.org/2000/svg\" width=\""
  const HeightAttr: string := "\" height=\""
  const ViewBox: string := "\" viewBox=\"0 0 24 24\""
  const SvgFill: string := " fill=\""
  const Stroke: string := "\" stroke=\"white\" stroke-width=\""
  const PolygonStart: string := "\"><polygon points=\""
  const PolygonEnd: string := "\"/></svg>"
  const PathStart: string := "<path d=\""
  const PathFill: string := "\" fill=\""
  const PathEnd: string := "\" stroke-linecap=\"round\" stroke-linejoin=\"round\"/>"
  const SvgClose: string := "</svg>"

  function FillValue(style: IconStyle): string
  {
    if style.fill then "white" else "none"
  }

  /** One `<path>` element of the marker. */
  function PathElement(d: string, fill: string, strokeWidth: string): string
  {
    PathStart + (d + (PathFill + (fill + (Stroke + (strokeWidth + PathEnd)))))
  }

  /** `paths.map(...).join("")`. */
  function PathElements(paths: seq<string>, fill: string, strokeWidth: string): string
  {
    if paths == [] then [] else PathElement(paths[0], fill, strokeWidth) + PathElements(paths[1..], fill, strokeWidth)
  }

  /** The body of `getHalalIconSvg` for one table entry and style; `${size}`
      is the decimal rendering of an integral size, 14 when none is given. */
  function RenderIcon(pathData: string, style: IconStyle, size: Option<int>): string
  {
    var paths := Split(pathData, '|');
    var fill := FillValue(style);
    var strokeWidth := NatToString(style.strokeWidth);
    var sz := IntToString(if size.Some? then size.value else 14);
    if style.isPolygon then
      SvgStart + (sz + (HeightAttr + (sz + (ViewBox + (SvgFill + (fill + (Stroke + (strokeWidth +
        (PolygonStart + (paths[0] + PolygonEnd))))))))))
    else
      SvgStart + (sz + (HeightAttr + (sz + (ViewBox + (">" + (PathElements(paths, fill, strokeWidth) + SvgClose))))))
  }

  /** `getHalalIconSvg(status, size = 14)`. */
  function GetHalalIconSvg(status: HalalStatus, size: Option<int>): string
  {
    RenderIcon(IconPath(status), Style(status), size)
  }

  // ---------------------------------------------------------------------------
  // Reading the markup back

  datatype IconElement = PathEl(d: string, fill: string, strokeWidth: string) | PolygonEl(points: string)

  /** An `svg` element: its width and height, the fill and stroke width on
      the `svg` element itself if any, and its child elements. */
  datatype IconDoc = IconDoc(width: string, height: string, fill: Option<string>, strokeWidth: Option<string>,
                             elements: seq<IconElement>)

  /** The position of the first `"` in `t`, or `|t|`. */
  function QuoteIndex(t: string): (n: nat)
    ensures n <= |t| && (n < |t| ==> t[n] == '"')
    ensures forall i :: 0 <= i < n ==> t[i] != '"'
  {
    if t == [] || t[0] == '"' then 0 else 1 + QuoteIndex(t[1..])
  }

  /** `lit` followed by an attribute value running to the next `"`: the value
      and the rest of the text from that quote on. */
  function Attr(s: string, lit: string): (r: Option<(string, string)>)
    ensures r.Some? ==> |r.value.0| + |r.value.1| + |lit| == |s|
  {
    if !StartsWith(s, lit) then None
    else
      var t := s[|lit|..];
      var n := QuoteIndex(t);
      if n == |t| then None else Some((t[..n], t[n..]))
  }

  /** `lit` at the start of `s`: the text after it. */
  function Expect(s: string, lit: string): (r: Option<string>)
    ensures r.Some? ==> |r.value| + |lit| == |s|
  {
    if StartsWith(s, lit) then Some(s[|lit|..]) else None
  }

  /** One `<path>` element: the element and the text after it. */
  function ReadPathElement(s: string): (r: Option<(IconElement, string)>)
    ensures r.Some? ==> |r.value.1| < |s|
  {
    match Attr(s, PathStart)
    case None => None
    case Some((d, s1)) =>
      match Attr(s1, PathFill)
      case None => None
      case Some((fill, s2)) =>
        match Attr(s2, Stroke)
        case None => None
        case Some((strokeWidth, s3)) =>
          match Expect(s3, PathEnd)
          case None => None
          case Some(s4) => Some((PathEl(d, fill, strokeWidth), s4))
  }

  /** A run of `<path>` elements closed by `</svg>`. */
  function ReadPaths(s: string): Option<seq<IconElement>>
    decreases |s|
  {
    if s == SvgClose then Some([])
    else
      match ReadPathElement(s)
      case None => None
      case Some((e, rest)) =>
        match ReadPaths(rest)
        case None => None
        case Some(es) => Some([e] + es)
  }

  /** The opening of the `svg` tag: its width and height, then the view box;
      the text after the view box. */
  function ReadHeader(s: string): Option<(string, string, string)>
  {
    match Attr(s, SvgStart)
    case None => None
    case Some((width, s1)) =>
      match Attr(s1, HeightAttr)
      case None => None
      case Some((height, s2)) =>
        match Expect(s2, ViewBox)
        case None => None
        case Some(s3) => Some((width, height, s3))
  }

  /** The rest of the `svg` element: either `>` and `<path>` elements, or a
      fill, a stroke width and one `<polygon>`. */
  function ReadBody(width: string, height: string, s: string): Option<IconDoc>
  {
    if StartsWith(s, ">") then
      match ReadPaths(s[1..])
      case None => None
      case Some(es) => Some(IconDoc(width, height, None, None, es))
    else
      match Attr(s, SvgFill)
      case None => None
      case Some((fill, s1)) =>
        match Attr(s1, Stroke)
        case None => None
        case Some((strokeWidth, s2)) =>
          match Attr(s2, PolygonStart)
          case None => None
          case Some((points, s3)) =>
            if s3 == PolygonEnd then Some(IconDoc(width, height, Some(fill), Some(strokeWidth), [PolygonEl(points)]))
            else None
  }

  /** The marker markup, read back. */
  function ReadIcon(s: string): Option<IconDoc>
  {
    match ReadHeader(s)
    case None => None
    case Some((width, height, rest)) => ReadBody(width, height, rest)
  }

  // ---------------------------------------------------------------------------
  // What the markup holds

  lemma {:induction false} QuoteIndexOf(v: string, rest: string)
    requires '"' !in v && rest != [] && rest[0] == '"'
    ensures QuoteIndex(v + rest) == |v|
  {
    if v != [] {
      assert (v + rest)[1..] == v[1..] + rest;
      assert v[0] in v;
      QuoteIndexOf(v[1..], rest);
    } else {
      assert v + rest == rest;
    }
  }

  lemma AttrRead(lit: string, v: string, rest: string)
    requires '"' !in v && rest != [] && rest[0] == '"'
    ensures Attr(lit + (v + rest), lit) == Some((v, rest))
  {
    var s := lit + (v + rest);
    assert s[..|lit|] == lit && s[|lit|..] == v + rest;
    QuoteIndexOf(v, rest);
    assert (v + rest)[..|v|] == v && (v + rest)[|v|..] == rest;
  }

  lemma ExpectRead(lit: string, rest: string)
    ensures Expect(lit + rest, lit) == Some(rest)
  {
    assert (lit + rest)[..|lit|] == lit && (lit + rest)[|lit|..] == rest;
  }

  lemma NatToStringQuoteFree(n: nat)
    ensures '"' !in NatToString(n)
  {
    var s := NatToString(n);
    forall i | 0 <= i < |s| ensures s[i] != '"' {
      assert IsDigit(s[i]);
    }
  }

  lemma IntToStringQuoteFree(n: int)
    ensures '"' !in IntToString(n)
  {
    if n < 0 {
      NatToStringQuoteFree(-n);
      assert IntToString(n) == "-" + NatToString(-n);
    } else {
      NatToStringQuoteFree(n);
    }
  }

  lemma MuslimFriendlyPath1QuoteFree()
    ensures '"' !in MuslimFriendlyPath1 && '|' !in MuslimFriendlyPath1
  {
  }

  lemma MuslimFriendlyPath2QuoteFree()
    ensures '"' !in MuslimFriendlyPath2 && '|' !in MuslimFriendlyPath2
  {
  }

  lemma MuslimFriendlyPath3QuoteFree()
    ensures '"' !in MuslimFriendlyPath3 && '|' !in MuslimFriendlyPath3
  {
  }

  lemma SeafoodPath1QuoteFree()
    ensures '"' !in SeafoodPath1
  {
  }

  lemma SeafoodPath2QuoteFree()
    ensures '"' !in SeafoodPath2
  {
  }

  lemma SeafoodPath3QuoteFree()
    ensures '"' !in SeafoodPath3
  {
  }

  lemma SeafoodPath4QuoteFree()
    ensures '"' !in SeafoodPath4
  {
  }

  lemma VegetarianPath1QuoteFree()
    ensures '"' !in VegetarianPath1
  {
  }

  lemma VegetarianPath2QuoteFree()
    ensures '"' !in VegetarianPath2
  {
  }

  lemma MasjidPathQuoteFree()
    ensures '"' !in MasjidPath
  {
  }

  lemma MartPath1QuoteFree()
    ensures '"' !in MartPath1
  {
  }

  lemma MartPath2QuoteFree()
    ensures '"' !in MartPath2
  {
  }

  lemma AccommodationPathQuoteFree()
    ensures '"' !in AccommodationPath
  {
  }

  lemma FillValueQuoteFree(style: IconStyle)
    ensures '"' !in FillValue(style)
  {
    if style.fill {
      assert FillValue(style) == "white";
    } else {
      assert FillValue(style) == "none";
    }
  }

  /** No table entry holds a `"`, so each reads back as one attribute value. */
  lemma IconPathQuoteFree(s: HalalStatus)
    ensures '"' !in IconPath(s)
  {
    match s
    case Halal =>
    case PartiallyHalal =>
    case MuslimFriendly =>
      MuslimFriendlyPath1QuoteFree();
      MuslimFriendlyPath2QuoteFree();
      MuslimFriendlyPath3QuoteFree();
    case Seafood =>
      SeafoodPath1QuoteFree();
      SeafoodPath2QuoteFree();
      SeafoodPath3QuoteFree();
      SeafoodPath4QuoteFree();
    case Vegetarian =>
      VegetarianPath1QuoteFree();
      VegetarianPath2QuoteFree();
    case Masjid =>
      MasjidPathQuoteFree();
    case Mart =>
      MartPath1QuoteFree();
      MartPath2QuoteFree();
    case Accommodation =>
      AccommodationPathQuoteFree();
  }

  lemma PathElementParse(d: string, fill: string, strokeWidth: string, rest: string)
    requires '"' !in d && '"' !in fill && '"' !in strokeWidth
    ensures ReadPathElement(PathElement(d, fill, strokeWidth) + rest) == Some((PathEl(d, fill, strokeWidth), rest))
  {
    var x4 := strokeWidth + PathEnd;
    var x3 := Stroke + x4;
    var x2 := fill + x3;
    var x1 := PathFill + x2;
    var x0 := d + x1;
    Assoc(PathStart, x0, rest);
    Assoc(d, x1, rest);
    Assoc(PathFill, x2, rest);
    Assoc(fill, x3, rest);
    Assoc(Stroke, x4, rest);
    Assoc(strokeWidth, PathEnd, rest);
    var s4 := PathEnd + rest;
    var s3 := Stroke + (strokeWidth + s4);
    var s2 := PathFill + (fill + s3);
    var s1 := d + s2;
    assert PathElement(d, fill, strokeWidth) + rest == PathStart + s1;
    AttrRead(PathStart, d, s2);
    AttrRead(PathFill, fill, s3);
    AttrRead(Stroke, strokeWidth, s4);
    ExpectRead(PathEnd, rest);
  }

  lemma PathElementRead(d: string, fill: string, strokeWidth: string, rest: string, es: seq<IconElement>)
    requires '"' !in d && '"' !in fill && '"' !in strokeWidth
    requires ReadPaths(rest) == Some(es)
    ensures ReadPaths(PathElement(d, fill, strokeWidth) + rest) == Some([PathEl(d, fill, strokeWidth)] + es)
  {
    PathElementParse(d, fill, strokeWidth, rest);
    PathElementLength(d, fill, strokeWidth);
    ReadPathsStep(PathElement(d, fill, strokeWidth) + rest, PathEl(d, fill, strokeWidth), rest, es);
  }

  lemma PathElementLength(d: string, fill: string, strokeWidth: string)
    ensures |PathElement(d, fill, strokeWidth)| > |SvgClose|
  {
    assert |PathStart| == 9 && |SvgClose| == 6;
  }

  /** `ReadPaths` reads one element and then the rest. */
  lemma ReadPathsStep(s: string, e: IconElement, rest: string, es: seq<IconElement>)
    requires |s| > |SvgClose| && ReadPathElement(s) == Some((e, rest)) && ReadPaths(rest) == Some(es)
    ensures ReadPaths(s) == Some([e] + es)
  {
  }

  lemma Assoc(a: string, b: string, c: string)
    ensures (a + b) + c == a + (b + c)
  {
  }

  /** The elements `PathElements` draws, one per path. */
  function PathEls(paths: seq<string>, fill: string, strokeWidth: string): (es: seq<IconElement>)
    ensures |es| == |paths|
    ensures forall k :: 0 <= k < |paths| ==> es[k] == PathEl(paths[k], fill, strokeWidth)
  {
    if paths == [] then [] else [PathEl(paths[0], fill, strokeWidth)] + PathEls(paths[1..], fill, strokeWidth)
  }

  /** The `<path>` elements read back one per path, in order. */
  lemma {:induction false} PathElementsRead(paths: seq<string>, fill: string, strokeWidth: string)
    requires forall k :: 0 <= k < |paths| ==> '"' !in paths[k]
    requires '"' !in fill && '"' !in strokeWidth
    ensures ReadPaths(PathElements(paths, fill, strokeWidth) + SvgClose) == Some(PathEls(paths, fill, strokeWidth))
  {
    if paths == [] {
      assert PathElements(paths, fill, strokeWidth) + SvgClose == SvgClose;
    } else {
      var head := PathElement(paths[0], fill, strokeWidth);
      var tail := PathElements(paths[1..], fill, strokeWidth);
      var rest := PathEls(paths[1..], fill, strokeWidth);
      PathElementsRead(paths[1..], fill, strokeWidth);
      PathElementRead(paths[0], fill, strokeWidth, tail + SvgClose, rest);
      assert PathElements(paths, fill, strokeWidth) == head + tail;
      Assoc(head, tail, SvgClose);
      assert PathEls(paths, fill, strokeWidth) == [PathEl(paths[0], fill, strokeWidth)] + rest;
    }
  }

  lemma RenderPolygonForm(pathData: string, style: IconStyle, size: Option<int>)
    requires style.isPolygon
    ensures var sz := IntToString(if size.Some? then size.value else 14);
      RenderIcon(pathData, style, size)
      == SvgStart + (sz + (HeightAttr + (sz + (ViewBox + (SvgFill + (FillValue(style) + (Stroke +
           (NatToString(style.strokeWidth) + (PolygonStart + (Split(pathData, '|')[0] + PolygonEnd))))))))))
  {
  }

  lemma RenderPathsForm(pathData: string, style: IconStyle, size: Option<int>)
    requires !style.isPolygon
    ensures var sz := IntToString(if size.Some? then size.value else 14);
      RenderIcon(pathData, style, size)
      == SvgStart + (sz + (HeightAttr + (sz + (ViewBox + (">" +
           (PathElements(Split(pathData, '|'), FillValue(style), NatToString(style.strokeWidth)) + SvgClose))))))
  {
  }

  lemma RenderReadsBackPolygon(pathData: string, style: IconStyle, size: Option<int>)
    requires '"' !in pathData && style.isPolygon
    ensures ReadIcon(RenderIcon(pathData, style, size))
         == Some(IconDoc(IntToString(if size.Some? then size.value else 14), IntToString(if size.Some? then size.value else 14),
                         Some(FillValue(style)), Some(NatToString(style.strokeWidth)), [PolygonEl(Split(pathData, '|')[0])]))
  {
    var sz := IntToString(if size.Some? then size.value else 14);
    var fill := FillValue(style);
    var strokeWidth := NatToString(style.strokeWidth);
    var points := Split(pathData, '|')[0];
    calc {
      ReadIcon(RenderIcon(pathData, style, size));
      { RenderPolygonForm(pathData, style, size); }
      ReadIcon(SvgStart + (sz + (HeightAttr + (sz + (ViewBox + (SvgFill + (fill + (Stroke + (strokeWidth +
        (PolygonStart + (points + PolygonEnd)))))))))));
      { IntToStringQuoteFree(if size.Some? then size.value else 14);
        NatToStringQuoteFree(style.strokeWidth);
        FillValueQuoteFree(style);
        SplitPartsAvoid(pathData, '|', '"');
        IconReadsBackPolygon(sz, fill, strokeWidth, points); }
      Some(IconDoc(sz, sz, Some(fill), Some(strokeWidth), [PolygonEl(points)]));
    }
  }

  lemma RenderReadsBackPaths(pathData: string, style: IconStyle, size: Option<int>)
    requires '"' !in pathData && !style.isPolygon
    ensures ReadIcon(RenderIcon(pathData, style, size))
         == Some(IconDoc(IntToString(if size.Some? then size.value else 14), IntToString(if size.Some? then size.value else 14),
                         None, None, PathEls(Split(pathData, '|'), FillValue(style), NatToString(style.strokeWidth))))
  {
    var sz := IntToString(if size.Some? then size.value else 14);
    var fill := FillValue(style);
    var strokeWidth := NatToString(style.strokeWidth);
    var segments := Split(pathData, '|');
    calc {
      ReadIcon(RenderIcon(pathData, style, size));
      { RenderPathsForm(pathData, style, size); }
      ReadIcon(SvgStart + (sz + (HeightAttr + (sz + (ViewBox + (">" +
        (PathElements(segments, fill, strokeWidth) + SvgClose)))))));
      { IntToStringQuoteFree(if size.Some? then size.value else 14);
        NatToStringQuoteFree(style.strokeWidth);
        SplitPartsAvoid(pathData, '|', '"');
        FillValueQuoteFree(style);
        IconReadsBackPaths(sz, fill, strokeWidth, segments); }
      Some(IconDoc(sz, sz, None, None, PathEls(segments, fill, strokeWidth)));
    }
  }

  /** The polygon entry is a single segment. */
  lemma MuslimFriendlyOneSegment()
    ensures Split(IconPath(MuslimFriendly), '|') == [IconPath(MuslimFriendly)]
  {
    MuslimFriendlyPath1QuoteFree();
    MuslimFriendlyPath2QuoteFree();
    MuslimFriendlyPath3QuoteFree();
    SplitNoSeparator(IconPath(MuslimFriendly), '|');
  }

  /** Read back, the marker is an `svg` of the requested size (14 when none is
      given). For muslim_friendly it holds exactly one `<polygon>` whose points
      are the whole table entry, with the fill and stroke width on the `svg`
      element; for every other status it holds one `<path>` per `|`-separated
      segment of the table entry, in order, each with the fill (`white` exactly
      when the style fills) and the style's stroke width. */
  lemma IconReadsBack(status: HalalStatus, size: Option<int>)
    ensures var doc := ReadIcon(GetHalalIconSvg(status, size));
      var sz := IntToString(if size.Some? then size.value else 14);
      var style := Style(status);
      var fill := if style.fill then "white" else "none";
      var strokeWidth := NatToString(style.strokeWidth);
      var segments := Split(IconPath(status), '|');
      doc.Some? && doc.value.width == sz && doc.value.height == sz &&
      (status == MuslimFriendly ==>
         doc.value.fill == Some(fill) && doc.value.strokeWidth == Some(strokeWidth) &&
         doc.value.elements == [PolygonEl(IconPath(status))]) &&
      (status != MuslimFriendly ==>
         doc.value.fill.None? && doc.value.strokeWidth.None? && |doc.value.elements| == |segments| &&
         forall k :: 0 <= k < |segments| ==> doc.value.elements[k] == PathEl(segments[k], fill, strokeWidth))
  {
    IconPathQuoteFree(status);
    PolygonOnlyMuslimFriendly(status);
    if status == MuslimFriendly {
      RenderReadsBackPolygon(IconPath(status), Style(status), size);
      MuslimFriendlyOneSegment();
    } else {
      RenderReadsBackPaths(IconPath(status), Style(status), size);
    }
  }

  lemma HeaderRead(sz: string, rest: string)
    requires '"' !in sz
    ensures ReadHeader(SvgStart + (sz + (HeightAttr + (sz + (ViewBox + rest))))) == Some((sz, sz, rest))
  {
    var s2 := ViewBox + rest;
    var s1 := HeightAttr + (sz + s2);
    AttrRead(SvgStart, sz, s1);
    AttrRead(HeightAttr, sz, s2);
    ExpectRead(ViewBox, rest);
  }

  lemma FillNotClosing(rest: string)
    ensures !StartsWith(SvgFill + rest, ">")
  {
    assert |SvgFill| == 7;
    assert (SvgFill + rest)[..1] == SvgFill[..1];
    assert SvgFill[0] == ' ';
  }

  lemma IconReadsBackPolygon(sz: string, fill: string, strokeWidth: string, points: string)
    requires '"' !in sz && '"' !in fill && '"' !in strokeWidth && '"' !in points
    ensures ReadIcon(SvgStart + (sz + (HeightAttr + (sz + (ViewBox + (SvgFill + (fill + (Stroke + (strokeWidth +
              (PolygonStart + (points + PolygonEnd)))))))))))
         == Some(IconDoc(sz, sz, Some(fill), Some(strokeWidth), [PolygonEl(points)]))
  {
    var s2 := PolygonStart + (points + PolygonEnd);
    var s1 := Stroke + (strokeWidth + s2);
    var body := SvgFill + (fill + s1);
    HeaderRead(sz, body);
    FillNotClosing(fill + s1);
    AttrRead(SvgFill, fill, s1);
    AttrRead(Stroke, strokeWidth, s2);
    AttrRead(PolygonStart, points, PolygonEnd);
  }

  lemma IconReadsBackPaths(sz: string, fill: string, strokeWidth: string, paths: seq<string>)
    requires '"' !in sz && '"' !in fill && '"' !in strokeWidth
    requires forall k :: 0 <= k < |paths| ==> '"' !in paths[k]
    ensures ReadIcon(SvgStart + (sz + (HeightAttr + (sz + (ViewBox + (">" +
              (PathElements(paths, fill, strokeWidth) + SvgClose)))))))
         == Some(IconDoc(sz, sz, None, None, PathEls(paths, fill, strokeWidth)))
  {
    var elements := PathElements(paths, fill, strokeWidth);
    var body := ">" + (elements + SvgClose);
    PathElementsRead(paths, fill, strokeWidth);
    HeaderRead(sz, body);
    assert StartsWith(body, ">") && body[1..] == elements + SvgClose;
  }
}
