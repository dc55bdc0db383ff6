/// `parseDescription` of the ingestion pipeline (lib/kmz-parser.ts): four
/// optional fields pulled out of a placemark's HTML description with regular
/// expressions, and a cleaned text made by a fixed chain of global
/// replacements, a trim and a line normalisation. Every regular expression
/// is written out as a scanner that finds the match JavaScript's
/// backtracking engine finds.
module Description {
  import opened Strings

  // ---------------------------------------------------------------------------
  // Character classes and greedy runs

  datatype CharClass =
    | Space             // \s
    | NotSpace          // [^\s], which is also [^\s\n]
    | NotChar(c: char)  // [^c]
    | NotSpaceNorLt     // [^\s<]
    | NotLtNorNewline   // [^<\n]

  predicate InClass(cls: CharClass, c: char)
  {
    match cls
    case Space => IsSpace(c)
    case NotSpace => !IsSpace(c)
    case NotChar(x) => c != x
    case NotSpaceNorLt => !IsSpace(c) && c != '<'
    case NotLtNorNewline => c != '<' && c != '\n'
  }

  predicate AllIn(cls: CharClass, s: string)
  {
    forall i :: 0 <= i < |s| ==> InClass(cls, s[i])
  }

  /** The length of the longest run of `cls` characters starting at `k`. */
  function Run(cls: CharClass, s: string, k: nat): (n: nat)
    requires k <= |s|
    ensures k + n <= |s| && AllIn(cls, s[k..k + n])
    ensures k + n == |s| || !InClass(cls, s[k + n])
    decreases |s| - k
  {
    if k < |s| && InClass(cls, s[k]) then
      var n := 1 + Run(cls, s, k + 1);
      assert s[k..k + n] == [s[k]] + s[k + 1..k + n];
      n
    else
      0
  }

  /** The first index at or after `k` where `needle` occurs. */
  function FindFrom(s: string, k: nat, needle: string): (r: Option<nat>)
    requires k <= |s|
    ensures r.Some? ==> k <= r.value && r.value + |needle| <= |s| && StartsWith(s[r.value..], needle)
    ensures r.Some? ==> r.value <= |s| && forall j :: k <= j < r.value ==> !StartsWith(s[j..], needle)
    ensures r.None? ==> forall j :: k <= j <= |s| ==> !StartsWith(s[j..], needle)
    decreases |s| - k
  {
    if StartsWith(s[k..], needle) then Some(k)
    else if k == |s| then None
    else FindFrom(s, k + 1, needle)
  }

  // ---------------------------------------------------------------------------
  // Patterns

  /** One element of a regular expression. Every pattern below is built so
      that each greedy item is followed either by nothing or by an item whose
      first character lies outside the item's class; for such patterns
      backtracking cannot find a match the greedy reading misses, so the
      greedy reading is the engine's match. */
  datatype Item =
    | Lit(text: string)        // the characters themselves
    | Star(cls: CharClass)     // cls*
    | Plus(cls: CharClass)     // cls+
    | Opt(c: char)             // c?
    | LazyUntil(stop: string)  // [\s\S]*?stop

  /** Where a match of `items` that starts at `k` ends, or None. */
  function MatchItems(items: seq<Item>, s: string, k: nat): (r: Option<nat>)
    requires k <= |s|
    ensures r.Some? ==> k <= r.value <= |s|
    ensures r.Some? && items != [] && items[0].Lit? ==> r.value >= k + |items[0].text|
    decreases |items|
  {
    if items == [] then Some(k)
    else
      match items[0]
      case Lit(text) =>
        if StartsWith(s[k..], text) then MatchItems(items[1..], s, k + |text|) else None
      case Star(cls) =>
        MatchItems(items[1..], s, k + Run(cls, s, k))
      case Plus(cls) =>
        var n := Run(cls, s, k);
        if n == 0 then None else MatchItems(items[1..], s, k + n)
      case Opt(c) =>
        if k < |s| && s[k] == c then MatchItems(items[1..], s, k + 1) else MatchItems(items[1..], s, k)
      case LazyUntil(stop) =>
        match FindFrom(s, k, stop)
        case None => None
        case Some(j) => MatchItems(items[1..], s, j + |stop|)
  }

  /** A pattern that starts with a non-empty literal never matches the empty
      string. */
  predicate Anchored(items: seq<Item>)
  {
    items != [] && items[0].Lit? && items[0].text != []
  }

  /** `s.replace(/items/g, repl)`: the text is scanned left to right; where
      a match starts it is replaced and the scan resumes at its end,
      elsewhere one character is kept. */
  function ReplaceAll(items: seq<Item>, s: string, repl: string): string
    requires Anchored(items)
    decreases |s|
  {
    if s == [] then []
    else
      match MatchItems(items, s, 0)
      case Some(n) => repl + ReplaceAll(items, s[n..], repl)
      case None => [s[0]] + ReplaceAll(items, s[1..], repl)
  }

  const ImgTag: seq<Item> := [Lit("<img"), Star(NotChar('>')), Lit(">")]
  const BrTag: seq<Item> := [Lit("<br"), Star(Space), Opt('/'), Lit(">")]
  const AnyTag: seq<Item> := [Lit("<"), Plus(NotChar('>')), Lit(">")]
  const AppBlock: seq<Item> := [Lit("\U{25FC} Korehalal Trip App Download"), LazyUntil("id6736513932")]
  const AndroidLink: seq<Item> :=
    [Lit("Android"), Star(Space), Lit(":"), Star(Space), Lit("https://play.google.com"), Plus(NotSpace)]
  const IosLink: seq<Item> :=
    [Lit("iOS"), Star(Space), Lit(":"), Star(Space), Lit("https://apps.apple.com"), Plus(NotSpace)]
  const DeliveryBlock: seq<Item> := [Lit("\U{1F6B2}Delivery Link:"), LazyUntil("viewform")]
  const FormsLink: seq<Item> := [Lit("https://forms.gle/"), Plus(NotSpace)]
  const InstagramLink: seq<Item> := [Lit("https://www.instagram.com"), Plus(NotSpace)]
  const HoursLine: seq<Item> := [Lit("\U{23F0}"), Plus(NotChar('\n'))]
  const PriceLine: seq<Item> := [Lit("\U{20A9}"), Plus(NotChar('\n'))]

  const Clock: char := '\U{23F0}'
  const Won: char := '\U{20A9}'

  /** One `.replace(pattern, replacement)` of the cleaning chain. */
  datatype Step = Step(pattern: seq<Item>, replacement: string)

  /** The cleaning chain, in order: image tags, line breaks (to a newline),
      any other tag, the app-download block, the two store links, the
      delivery block, form links, Instagram links, and the rest of every
      line that starts at a clock or a won sign. */
  const CleaningSteps: seq<Step> := [
    Step(ImgTag, ""), Step(BrTag, "\n"), Step(AnyTag, ""), Step(AppBlock, ""),
    Step(AndroidLink, ""), Step(IosLink, ""), Step(DeliveryBlock, ""),
    Step(FormsLink, ""), Step(InstagramLink, ""), Step(HoursLine, ""), Step(PriceLine, "")]

  predicate AllAnchored(steps: seq<Step>)
  {
    forall k :: 0 <= k < |steps| ==> Anchored(steps[k].pattern)
  }

  function ApplySteps(steps: seq<Step>, s: string): string
    requires AllAnchored(steps)
  {
    if steps == [] then s
    else ApplySteps(steps[1..], ReplaceAll(steps[0].pattern, s, steps[0].replacement))
  }

  // ---------------------------------------------------------------------------
  // Line normalisation

  predicate IsTrimmed(line: string)
  {
    line == [] || (!IsSpace(line[0]) && !IsSpace(line[|line| - 1]))
  }

  function TrimLines(lines: seq<string>): (r: seq<string>)
    ensures |r| == |lines|
    ensures forall k :: 0 <= k < |lines| ==> r[k] == Trim(lines[k])
  {
    if lines == [] then [] else [Trim(lines[0])] + TrimLines(lines[1..])
  }

  function NonEmptyLines(lines: seq<string>): seq<string>
  {
    if lines == [] then []
    else if lines[0] == [] then NonEmptyLines(lines[1..])
    else [lines[0]] + NonEmptyLines(lines[1..])
  }

  /** `.split("\n").map(trim).filter(non-empty).join("\n")`. */
  function NormalizeLines(s: string): string
  {
    Join(NonEmptyLines(TrimLines(Split(s, '\n'))), '\n')
  }

  /** A text whose lines are all non-empty and trimmed (the empty text has
      no lines at all). */
  predicate LinesNormal(s: string)
  {
    var lines := Split(s, '\n');
    s == [] || forall k :: 0 <= k < |lines| ==> lines[k] != [] && IsTrimmed(lines[k])
  }

  lemma {:induction false} TrimLinesKeepsOut(lines: seq<string>, c: char)
    requires forall k :: 0 <= k < |lines| ==> c !in lines[k]
    ensures forall k :: 0 <= k < |lines| ==> c !in TrimLines(lines)[k]
  {
    forall k | 0 <= k < |lines| ensures c !in TrimLines(lines)[k] {
      TrimKeepsOut(lines[k], c);
    }
  }

  /** Filtering keeps exactly the non-empty lines, so what survives
      satisfies every property all the lines had. */
  lemma {:induction false} NonEmptyLinesFrom(lines: seq<string>, c: char)
    requires forall k :: 0 <= k < |lines| ==> c !in lines[k] && IsTrimmed(lines[k])
    ensures forall k :: 0 <= k < |NonEmptyLines(lines)| ==>
      NonEmptyLines(lines)[k] != [] && c !in NonEmptyLines(lines)[k] && IsTrimmed(NonEmptyLines(lines)[k])
  {
    if lines != [] {
      NonEmptyLinesFrom(lines[1..], c);
    }
  }

  lemma {:induction false} NonEmptyLinesOfNonEmpty(lines: seq<string>)
    requires forall k :: 0 <= k < |lines| ==> lines[k] != []
    ensures NonEmptyLines(lines) == lines
  {
    if lines != [] {
      NonEmptyLinesOfNonEmpty(lines[1..]);
    }
  }

  lemma {:induction false} TrimLinesOfTrimmed(lines: seq<string>)
    requires forall k :: 0 <= k < |lines| ==> IsTrimmed(lines[k])
    ensures TrimLines(lines) == lines
  {
    forall k | 0 <= k < |lines| ensures TrimLines(lines)[k] == lines[k] {
      TrimmedIsFixed(lines[k]);
    }
  }

  /** Every line of the normalised text is non-empty and trimmed. */
  lemma NormalizeLinesNormal(s: string)
    ensures LinesNormal(NormalizeLines(s))
  {
    TrimmedParts(s);
    NormalOfTrimmed(TrimLines(Split(s, '\n')));
  }

  lemma NormalOfTrimmed(lines: seq<string>)
    requires forall k :: 0 <= k < |lines| ==> '\n' !in lines[k] && IsTrimmed(lines[k])
    ensures LinesNormal(Join(NonEmptyLines(lines), '\n'))
  {
    NonEmptyLinesFrom(lines, '\n');
    JoinNormal(NonEmptyLines(lines));
  }

  /** The trimmed lines of a text hold no line break and are trimmed. */
  lemma TrimmedParts(s: string)
    ensures forall k :: 0 <= k < |TrimLines(Split(s, '\n'))| ==>
      '\n' !in TrimLines(Split(s, '\n'))[k] && IsTrimmed(TrimLines(Split(s, '\n'))[k])
  {
    var parts := Split(s, '\n');
    var trimmed := TrimLines(parts);
    forall k | 0 <= k < |trimmed| ensures '\n' !in trimmed[k] && IsTrimmed(trimmed[k]) {
      assert trimmed[k] == Trim(parts[k]) && '\n' !in parts[k];
      TrimmedWithout(parts[k], '\n');
    }
  }

  lemma TrimmedWithout(x: string, c: char)
    requires c !in x
    ensures c !in Trim(x) && IsTrimmed(Trim(x))
  {
    TrimKeepsOut(x, c);
  }

  /** Joining non-empty trimmed lines without line breaks gives a normal
      text. */
  lemma JoinNormal(lines: seq<string>)
    requires forall k :: 0 <= k < |lines| ==> lines[k] != [] && '\n' !in lines[k] && IsTrimmed(lines[k])
    ensures LinesNormal(Join(lines, '\n'))
  {
    if lines != [] {
      SplitJoin(lines, '\n');
    }
  }

  /** A text whose lines are already normal is left unchanged. */
  lemma NormalizeLinesOfNormal(s: string)
    requires LinesNormal(s)
    ensures NormalizeLines(s) == s
  {
    var lines := Split(s, '\n');
    if s == [] {
      assert lines == [[]];
      assert TrimLines(lines) == [[]];
    } else {
      TrimLinesOfTrimmed(lines);
      NonEmptyLinesOfNonEmpty(lines);
      JoinSplit(s, '\n');
    }
  }

  /** Normalisation is idempotent. */
  lemma NormalizeLinesIdempotent(s: string)
    ensures NormalizeLines(NormalizeLines(s)) == NormalizeLines(s)
  {
    NormalizeLinesNormal(s);
    NormalizeLinesOfNormal(NormalizeLines(s));
  }

  /** The fixed points of normalisation are exactly the normal texts. */
  lemma NormalizeLinesFixedPoints(s: string)
    ensures NormalizeLines(s) == s <==> LinesNormal(s)
  {
    var t := NormalizeLines(s);
    NormalizeLinesNormal(s);
    if LinesNormal(s) {
      NormalizeLinesOfNormal(s);
    }
    assert t == s ==> LinesNormal(t) == LinesNormal(s);
  }

  // ---------------------------------------------------------------------------
  // Field extraction

  const ImgSrcPrefix: string := "<img src=\""
  const InstagramPrefix: string := "https://www.instagram.com/"

  /** The four extracted fields and the expression each is read with. */
  datatype Field =
    | ImageField      // <img src="([^"]+)"
    | HoursField      // clock \s*([^<\n]+)
    | PriceField      // won \s*([^<\n]+)
    | InstagramField  // https://www.instagram.com/[^\s<]+

  /** The backtracking start of the capture of `glyph\s*([^<\n]+)` when the
      white-space run after the glyph ends at `base + t`: the latest index
      in `[base, base + t]` that holds a character of `[^<\n]`. */
  function BackStart(s: string, base: nat, t: nat): (r: Option<nat>)
    requires base + t <= |s|
    ensures r.Some? ==> base <= r.value <= base + t && r.value < |s| && InClass(NotLtNorNewline, s[r.value])
    ensures r.Some? ==> forall j :: r.value < j <= base + t && j < |s| ==> !InClass(NotLtNorNewline, s[j])
    ensures r.None? ==> forall j :: base <= j <= base + t && j < |s| ==> !InClass(NotLtNorNewline, s[j])
    decreases t
  {
    if base + t < |s| && InClass(NotLtNorNewline, s[base + t]) then Some(base + t)
    else if t == 0 then None
    else BackStart(s, base, t - 1)
  }

  /** Every prefix of a run of `\s` is white space. */
  lemma SpaceRunPrefix(s: string, b: nat, m: nat, a: nat)
    requires b <= a <= b + m <= |s| && AllIn(Space, s[b..b + m])
    ensures AllSpace(s[b..a])
  {
    forall j | 0 <= j < a - b ensures IsSpace(s[b..a][j]) {
      assert s[b..a][j] == s[b..b + m][j];
      assert InClass(Space, s[b..b + m][j]);
    }
  }

  /** The capture of `glyph\s*([^<\n]+)` for a match at `i`. The engine
      first lets `\s*` take the whole white-space run, then gives back one
      character at a time until `[^<\n]+` can take at least one. */
  function GlyphCapture(glyph: char, s: string, i: nat): (r: Option<(nat, nat)>)
    requires i <= |s|
    ensures r.Some? ==> i < |s| && s[i] == glyph
    ensures r.Some? ==> i < r.value.0 < r.value.1 <= |s|
    ensures r.Some? ==> AllSpace(s[i + 1..r.value.0]) && AllIn(NotLtNorNewline, s[r.value.0..r.value.1])
    ensures r.Some? ==> r.value.1 == |s| || s[r.value.1] == '<' || s[r.value.1] == '\n'
    ensures r.Some? ==>
      forall j :: r.value.0 < j <= i + 1 + Run(Space, s, i + 1) && j < |s| ==> !InClass(NotLtNorNewline, s[j])
  {
    if i < |s| && s[i] == glyph then CaptureAfterSpace(s, i + 1, Run(Space, s, i + 1)) else None
  }

  /** The capture of `\s*([^<\n]+)` once the white-space run `s[b..b + m]`
      is known. */
  function CaptureAfterSpace(s: string, b: nat, m: nat): (r: Option<(nat, nat)>)
    requires b + m <= |s| && AllIn(Space, s[b..b + m])
    ensures r.Some? ==> b <= r.value.0 < r.value.1 <= |s|
    ensures r.Some? ==> AllSpace(s[b..r.value.0]) && AllIn(NotLtNorNewline, s[r.value.0..r.value.1])
    ensures r.Some? ==> r.value.1 == |s| || s[r.value.1] == '<' || s[r.value.1] == '\n'
    ensures r.Some? ==> forall j :: r.value.0 < j <= b + m && j < |s| ==> !InClass(NotLtNorNewline, s[j])
  {
    match BackStart(s, b, m)
    case None => None
    case Some(a) =>
      SpaceRunPrefix(s, b, m, a);
      Some((a, a + Run(NotLtNorNewline, s, a)))
  }

  /** The capture of `<img src="([^"]+)"` for a match at `i`. */
  function ImageCapture(s: string, i: nat): (r: Option<(nat, nat)>)
    requires i <= |s|
    ensures r.Some? ==>
      && StartsWith(s[i..], ImgSrcPrefix) && r.value.0 == i + |ImgSrcPrefix| < r.value.1 < |s|
      && s[r.value.1] == '"' && AllIn(NotChar('"'), s[r.value.0..r.value.1])
  {
    if StartsWith(s[i..], ImgSrcPrefix) then
      var a := i + |ImgSrcPrefix|;
      var n := Run(NotChar('"'), s, a);
      if n > 0 && a + n < |s| then Some((a, a + n)) else None
    else
      None
  }

  /** The match of `https://www.instagram.com/[^\s<]+` at `i`. */
  function InstagramCapture(s: string, i: nat): (r: Option<(nat, nat)>)
    requires i <= |s|
    ensures r.Some? ==>
      && r.value.0 == i && StartsWith(s[i..], InstagramPrefix)
      && i + |InstagramPrefix| < r.value.1 <= |s|
      && AllIn(NotSpaceNorLt, s[i + |InstagramPrefix|..r.value.1])
  {
    if StartsWith(s[i..], InstagramPrefix) then
      var n := Run(NotSpaceNorLt, s, i + |InstagramPrefix|);
      if n > 0 then Some((i, i + |InstagramPrefix| + n)) else None
    else
      None
  }

  /** The bounds of the field's capture for a match that starts at `i`, or
      None when the expression does not match there. */
  function CaptureAt(f: Field, s: string, i: nat): (r: Option<(nat, nat)>)
    requires i <= |s|
    ensures r.Some? ==> i <= r.value.0 < r.value.1 <= |s|
  {
    match f
    case ImageField => ImageCapture(s, i)
    case HoursField => GlyphCapture(Clock, s, i)
    case PriceField => GlyphCapture(Won, s, i)
    case InstagramField => InstagramCapture(s, i)
  }

  /** For each index of `s` and the end, whether the field's expression
      matches there. */
  function MatchTable(f: Field, s: string): (b: seq<bool>)
    ensures |b| == |s| + 1
  {
    seq(|s| + 1, j requires 0 <= j <= |s| => CaptureAt(f, s, j).Some?)
  }

  /** The first index at or after `k` that holds `true`. */
  function FirstTrue(b: seq<bool>, k: nat): (r: Option<nat>)
    requires k <= |b|
    ensures r.Some? ==> k <= r.value < |b| && b[r.value]
    decreases |b| - k
  {
    if k == |b| then None
    else if b[k] then Some(k)
    else FirstTrue(b, k + 1)
  }

  lemma {:induction false} FirstTrueLeftmost(b: seq<bool>, k: nat)
    requires k <= |b|
    ensures FirstTrue(b, k).Some? ==> forall j :: k <= j < FirstTrue(b, k).value ==> !b[j]
    ensures FirstTrue(b, k).None? ==> forall j :: k <= j < |b| ==> !b[j]
    decreases |b| - k
  {
    if k < |b| && !b[k] {
      FirstTrueLeftmost(b, k + 1);
    }
  }

  /** The leftmost index at or after `k` where the field's expression
      matches: what `String.prototype.match` finds without the `g` flag. */
  function FirstMatch(f: Field, s: string, k: nat): (r: Option<nat>)
    requires k <= |s|
    ensures r.Some? ==> k <= r.value <= |s| && CaptureAt(f, s, r.value).Some?
  {
    var r := FirstTrue(MatchTable(f, s), k);
    if r.Some? then
      assert MatchTable(f, s)[r.value];
      r
    else r
  }

  /** The match found is the leftmost one: the expression matches nowhere
      between `k` and it, and nowhere from `k` on when none is found. */
  lemma FirstMatchLeftmost(f: Field, s: string, k: nat)
    requires k <= |s|
    ensures FirstMatch(f, s, k).Some? ==>
      forall j :: k <= j < FirstMatch(f, s, k).value ==> CaptureAt(f, s, j).None?
    ensures FirstMatch(f, s, k).None? ==> forall j :: k <= j <= |s| ==> CaptureAt(f, s, j).None?
  {
    var b := MatchTable(f, s);
    FirstTrueLeftmost(b, k);
    forall j | k <= j <= |s| && !b[j] ensures CaptureAt(f, s, j).None? {
      assert b[j] == CaptureAt(f, s, j).Some?;
    }
  }

  /** The captured text of the first match, if any. */
  function Extract(f: Field, s: string): Option<string>
  {
    match FirstMatch(f, s, 0)
    case None => None
    case Some(i) =>
      var c := CaptureAt(f, s, i).value;
      Some(s[c.0..c.1])
  }

  // ---------------------------------------------------------------------------
  // parseDescription

  datatype ParsedDescription = ParsedDescription(
    image_url: Option<string>,
    opening_hours: Option<string>,
    price_range: Option<string>,
    instagram_url: Option<string>,
    cleaned_description: string)

  function CleanDescription(d: string): string
  {
    NormalizeLines(Trim(ApplySteps(CleaningSteps, d)))
  }

  function ParseDescription(d: string): ParsedDescription
  {
    ParsedDescription(
      Extract(ImageField, d), OpeningHours(d), PriceRange(d),
      Extract(InstagramField, d), CleanDescription(d))
  }

  /** The trimmed hours capture. */
  function OpeningHours(d: string): Option<string>
  {
    var hours := Extract(HoursField, d);
    if hours.Some? then Some(Trim(hours.value)) else None
  }

  /** The won sign followed by the trimmed price capture. */
  function PriceRange(d: string): Option<string>
  {
    var price := Extract(PriceField, d);
    if price.Some? then Some([Won] + Trim(price.value)) else None
  }

  /** What each extracted field looks like: the image address is non-empty
      and free of quotes and occurs in the description between
      `<img src="` and a quote; the opening hours are trimmed and hold no
      `<` and no line break; the price starts with the won sign and holds no
      `<` and no line break; the Instagram address starts with the profile
      prefix, has at least one more character, and none of those is white
      space or `<`; the cleaned text is normal. */
  lemma ParsedFields(d: string)
    ensures var p := ParseDescription(d);
      && (p.image_url.Some? ==>
            var u := p.image_url.value;
            u != [] && '"' !in u && Contains(d, ImgSrcPrefix + u + "\""))
      && (p.opening_hours.Some? ==>
            var h := p.opening_hours.value;
            IsTrimmed(h) && '<' !in h && '\n' !in h)
      && (p.price_range.Some? ==>
            var w := p.price_range.value;
            w != [] && w[0] == Won && '<' !in w && '\n' !in w)
      && (p.instagram_url.Some? ==>
            var g := p.instagram_url.value;
            StartsWith(g, InstagramPrefix) && |g| > |InstagramPrefix|
            && AllIn(NotSpaceNorLt, g[|InstagramPrefix|..]))
      && LinesNormal(p.cleaned_description)
  {
    ImageUrlShape(d);
    HoursShape(d);
    PriceShape(d);
    InstagramShape(d);
    NormalizeLinesNormal(Trim(ApplySteps(CleaningSteps, d)));
  }

  lemma HoursShape(d: string)
    ensures OpeningHours(d).Some? ==>
      var h := OpeningHours(d).value;
      IsTrimmed(h) && '<' !in h && '\n' !in h
  {
    GlyphFieldShape(HoursField, d);
    var hours := Extract(HoursField, d);
    if hours.Some? {
      TrimmedLine(hours.value);
    }
  }

  /** Trimming a text without `<` or line breaks gives a trimmed text
      without them. */
  lemma TrimmedLine(x: string)
    requires '<' !in x && '\n' !in x
    ensures IsTrimmed(Trim(x)) && '<' !in Trim(x) && '\n' !in Trim(x)
  {
    TrimKeepsOut(x, '<');
    TrimKeepsOut(x, '\n');
  }

  lemma PriceShape(d: string)
    ensures PriceRange(d).Some? ==>
      var w := PriceRange(d).value;
      w != [] && w[0] == Won && '<' !in w && '\n' !in w
  {
    GlyphFieldShape(PriceField, d);
    var price := Extract(PriceField, d);
    if price.Some? {
      TrimKeepsOut(price.value, '<');
      TrimKeepsOut(price.value, '\n');
    }
  }

  lemma ImageUrlShape(d: string)
    ensures Extract(ImageField, d).Some? ==>
      var u := Extract(ImageField, d).value;
      u != [] && '"' !in u && Contains(d, ImgSrcPrefix + u + "\"")
  {
    match FirstMatch(ImageField, d, 0) {
      case None =>
      case Some(i) =>
        var (a, b) := ImageCapture(d, i).value;
        QuotedAt(d, i, a, b);
    }
  }

  /** The text between `<img src="` at `i` and the quote at `b`. */
  lemma QuotedAt(d: string, i: nat, a: nat, b: nat)
    requires i + |ImgSrcPrefix| == a < b < |d| && StartsWith(d[i..], ImgSrcPrefix)
    requires d[b] == '"' && AllIn(NotChar('"'), d[a..b])
    ensures d[a..b] != [] && '"' !in d[a..b] && Contains(d, ImgSrcPrefix + d[a..b] + "\"")
  {
    var u := d[a..b];
    assert forall k :: 0 <= k < |u| ==> InClass(NotChar('"'), u[k]);
    assert d[i..a] == ImgSrcPrefix;
    assert d[i..b + 1] == d[i..a] + u + [d[b]];
    ContainsAt(d, i, ImgSrcPrefix + u + "\"");
  }

  lemma ContainsAt(hay: string, i: nat, w: string)
    requires i + |w| <= |hay| && hay[i..i + |w|] == w
    ensures Contains(hay, w)
  {
    assert StartsWith(hay[i..], w);
  }

  lemma InstagramShape(d: string)
    ensures Extract(InstagramField, d).Some? ==>
      var g := Extract(InstagramField, d).value;
      StartsWith(g, InstagramPrefix) && |g| > |InstagramPrefix| && AllIn(NotSpaceNorLt, g[|InstagramPrefix|..])
  {
    match FirstMatch(InstagramField, d, 0) {
      case None =>
      case Some(i) =>
        var (a, b) := InstagramCapture(d, i).value;
        assert d[a..b][|InstagramPrefix|..] == d[i + |InstagramPrefix|..b];
        assert d[a..b][..|InstagramPrefix|] == d[i..][..|InstagramPrefix|];
    }
  }

  /** The capture of the hours and price expressions holds no `<` and no
      line break. */
  lemma GlyphFieldShape(f: Field, d: string)
    requires f == HoursField || f == PriceField
    ensures Extract(f, d).Some? ==> '<' !in Extract(f, d).value && '\n' !in Extract(f, d).value
  {
    match FirstMatch(f, d, 0) {
      case None =>
      case Some(i) =>
        var x := Extract(f, d).value;
        assert AllIn(NotLtNorNewline, x);
        assert forall k :: 0 <= k < |x| ==> InClass(NotLtNorNewline, x[k]);
    }
  }

  // ---------------------------------------------------------------------------
  // How the hours capture behaves

  lemma {:induction false} RunExact(cls: CharClass, s: string, k: nat, j: nat)
    requires k <= j <= |s| && AllIn(cls, s[k..j])
    requires j == |s| || !InClass(cls, s[j])
    ensures Run(cls, s, k) == j - k
    decreases j - k
  {
    if k < j {
      assert s[k] == s[k..j][0];
      assert s[k + 1..j] == s[k..j][1..];
      RunExact(cls, s, k + 1, j);
    }
  }

  /** After the clock, `\s*` may run over white space and even line breaks;
      the capture is then the whole run of `[^<\n]` that follows, so a price
      on the same line ends up inside the opening hours. */
  lemma HoursCapture(w: string, x: string, rest: string)
    requires AllSpace(w)
    requires x != [] && !IsSpace(x[0]) && AllIn(NotLtNorNewline, x)
    requires rest == [] || rest[0] == '<' || rest[0] == '\n'
    ensures OpeningHours([Clock] + w + x + rest) == Some(Trim(x))
  {
    var s := [Clock] + w + x + rest;
    HoursCaptureAt(w, x, rest);
    assert FirstMatch(HoursField, s, 0) == Some(0);
  }

  lemma HoursCaptureAt(w: string, x: string, rest: string)
    requires AllSpace(w)
    requires x != [] && !IsSpace(x[0]) && AllIn(NotLtNorNewline, x)
    requires rest == [] || rest[0] == '<' || rest[0] == '\n'
    ensures var s := [Clock] + w + x + rest;
      CaptureAt(HoursField, s, 0) == Some((1 + |w|, 1 + |w| + |x|)) && s[1 + |w|..1 + |w| + |x|] == x
  {
    var s := [Clock] + w + x + rest;
    var a := 1 + |w|;
    HoursRuns(w, x, rest);
    assert GlyphCapture(Clock, s, 0) == Some((a, a + |x|));
  }

  lemma HoursRuns(w: string, x: string, rest: string)
    requires AllSpace(w)
    requires x != [] && !IsSpace(x[0]) && AllIn(NotLtNorNewline, x)
    requires rest == [] || rest[0] == '<' || rest[0] == '\n'
    ensures var s := [Clock] + w + x + rest;
      && |s| == 1 + |w| + |x| + |rest| && s[1 + |w|] == x[0]
      && Run(Space, s, 1) == |w| && Run(NotLtNorNewline, s, 1 + |w|) == |x|
      && BackStart(s, 1, |w|) == Some(1 + |w|) && s[1 + |w|..1 + |w| + |x|] == x && s[0] == Clock
  {
    var s := [Clock] + w + x + rest;
    var a := 1 + |w|;
    assert s[1..a] == w && s[a..a + |x|] == x;
    assert AllIn(Space, s[1..a]) by {
      forall k | 0 <= k < |w| ensures InClass(Space, s[1..a][k]) { assert IsSpace(w[k]); }
    }
    RunExact(Space, s, 1, a);
    assert a + |x| == |s| || s[a + |x|] == rest[0];
    RunExact(NotLtNorNewline, s, a, a + |x|);
  }

  /** A lone white-space character between the clock and a `<` is captured
      by giving it back from `\s*`, and trims to the empty string. */
  lemma HoursLoneSpace(c: char, rest: string)
    requires IsSpace(c) && c != '\n'
    ensures OpeningHours([Clock, c, '<'] + rest) == Some([])
  {
    var s := [Clock, c, '<'] + rest;
    assert s[1..2] == [c];
    RunExact(Space, s, 1, 2);
    assert BackStart(s, 1, 1) == Some(1);
    RunExact(NotLtNorNewline, s, 1, 2);
    assert CaptureAt(HoursField, s, 0) == Some((1, 2));
    assert TrimStart([c]) == [];
  }

  // ---------------------------------------------------------------------------
  // What the cleaning removes: the rest of every hours and price line

  /** Every `g` in `t` is the last character of its line. */
  predicate EndsLines(g: char, t: string)
  {
    forall i :: 0 <= i < |t| && t[i] == g ==> LineEndAt(t, i + 1)
  }

  /** Index `j` of `t` is the end of a line. */
  predicate LineEndAt(t: string, j: nat)
  {
    j >= |t| || t[j] == '\n'
  }

  /** `g` occurs in `line` at most as its last character. */
  predicate OnlyAtEnd(g: char, line: string)
  {
    forall j :: 0 <= j < |line| && line[j] == g ==> j == |line| - 1
  }

  lemma EndsLinesCons(g: char, c: char, r: string)
    requires EndsLines(g, r)
    requires c == g ==> r == [] || r[0] == '\n'
    ensures EndsLines(g, [c] + r)
  {
    forall i | 0 <= i < |[c] + r| && ([c] + r)[i] == g ensures i + 1 == |[c] + r| || ([c] + r)[i + 1] == '\n' {
      if i > 0 {
        assert ([c] + r)[i] == r[i - 1];
      }
    }
  }

  lemma EndsLinesSuffix(g: char, s: string, n: nat)
    requires n <= |s| && EndsLines(g, s)
    ensures EndsLines(g, s[n..])
  {
    forall i | 0 <= i < |s[n..]| && s[n..][i] == g ensures i + 1 == |s[n..]| || s[n..][i + 1] == '\n' {
      assert s[n..][i] == s[n + i];
    }
  }

  /** A text that does not start where the pattern starts keeps its first
      character. */
  lemma FirstKept(items: seq<Item>, s: string, repl: string)
    requires Anchored(items) && s != [] && s[0] != items[0].text[0]
    ensures ReplaceAll(items, s, repl) == [s[0]] + ReplaceAll(items, s[1..], repl)
  {
    assert !StartsWith(s[0..], items[0].text);
  }

  lemma PlusMatch(cls: CharClass, s: string, k: nat)
    requires k <= |s|
    ensures MatchItems([Plus(cls)], s, k) == if Run(cls, s, k) == 0 then None else Some(k + Run(cls, s, k))
  {
    assert [Plus(cls)][1..] == [];
  }

  /** Removing `g[^\n]+` leaves every `g` at the end of its line. */
  lemma {:induction false} LineRemovalEndsLines(g: char, s: string)
    requires g != '\n'
    ensures EndsLines(g, ReplaceAll([Lit([g]), Plus(NotChar('\n'))], s, ""))
    decreases |s|
  {
    var p := [Lit([g]), Plus(NotChar('\n'))];
    if s != [] {
      match MatchItems(p, s, 0) {
        case Some(n) =>
          LineRemovalEndsLines(g, s[n..]);
          assert ReplaceAll(p, s, "") == ReplaceAll(p, s[n..], "");
        case None =>
          LineRemovalEndsLines(g, s[1..]);
          var r := ReplaceAll(p, s[1..], "");
          if s[0] == g && |s| > 1 {
            assert StartsWith(s[0..], [g]);
            assert p[0] == Lit([g]);
            assert p[1..] == [Plus(NotChar('\n'))] && p[1..][1..] == [];
            assert MatchItems(p[1..], s, 1) == None;
            PlusMatch(NotChar('\n'), s, 1);
            FirstKept(p, s[1..], "");
          }
          EndsLinesCons(g, s[0], r);
      }
    }
  }

  /** Removing any pattern that starts with neither `g` nor a line break
      keeps every `g` at the end of its line. */
  lemma {:induction false} RemovalKeepsEndsLines(items: seq<Item>, g: char, s: string)
    requires Anchored(items) && items[0].text[0] != g && items[0].text[0] != '\n'
    requires EndsLines(g, s)
    ensures EndsLines(g, ReplaceAll(items, s, ""))
    decreases |s|
  {
    if s != [] {
      match MatchItems(items, s, 0) {
        case Some(n) =>
          EndsLinesSuffix(g, s, n);
          RemovalKeepsEndsLines(items, g, s[n..]);
          assert ReplaceAll(items, s, "") == ReplaceAll(items, s[n..], "");
        case None =>
          EndsLinesSuffix(g, s, 1);
          RemovalKeepsEndsLines(items, g, s[1..]);
          var r := ReplaceAll(items, s[1..], "");
          if s[0] == g && |s| > 1 {
            FirstKept(items, s[1..], "");
          }
          EndsLinesCons(g, s[0], r);
      }
    }
  }

  lemma EndsLinesInfix(g: char, t: string, i: nat, e: nat)
    requires i <= e <= |t| && EndsLines(g, t)
    ensures EndsLines(g, t[i..e])
  {
    forall j | 0 <= j < e - i && t[i..e][j] == g ensures j + 1 == e - i || t[i..e][j + 1] == '\n' {
      assert t[i..e][j] == t[i + j];
      if j + 1 < e - i {
        assert t[i..e][j + 1] == t[i + j + 1];
      }
    }
  }

  /** Where the trim of `s` starts in `s`. */
  lemma TrimSlice(s: string) returns (i: nat)
    ensures i + |Trim(s)| <= |s| && Trim(s) == s[i..i + |Trim(s)|]
  {
    i := TrimOffset(s);
  }

  lemma EndsLinesTrim(g: char, t: string)
    requires EndsLines(g, t)
    ensures EndsLines(g, Trim(t))
  {
    var i := TrimSlice(t);
    EndsLinesInfix(g, t, i, i + |Trim(t)|);
  }

  /** Splitting at line breaks a text whose `g`s end their lines gives lines
      that hold `g` at most at their end. */
  lemma {:induction false} SplitOnlyAtEnd(g: char, s: string)
    requires g != '\n' && EndsLines(g, s)
    ensures forall k :: 0 <= k < |Split(s, '\n')| ==> OnlyAtEnd(g, Split(s, '\n')[k])
  {
    if s != [] {
      EndsLinesSuffix(g, s, 1);
      SplitOnlyAtEnd(g, s[1..]);
      var rest := Split(s[1..], '\n');
      if s[0] != '\n' {
        if s[0] == g {
          if s[1..] != [] {
            assert s[1..][0] == '\n';
            assert rest[0] == [];
          }
          assert [s[0]] + rest[0] == [g];
        } else {
          var line := [s[0]] + rest[0];
          forall j | 0 <= j < |line| && line[j] == g ensures j == |line| - 1 {
            assert j > 0 && line[j] == rest[0][j - 1];
          }
        }
      }
    }
  }

  lemma OnlyAtEndInfix(g: char, line: string, i: nat, e: nat)
    requires i <= e <= |line| && OnlyAtEnd(g, line)
    ensures OnlyAtEnd(g, line[i..e])
  {
    forall j | 0 <= j < e - i && line[i..e][j] == g ensures j == e - i - 1 {
      assert line[i..e][j] == line[i + j];
    }
  }

  lemma TrimOnlyAtEnd(g: char, line: string)
    requires OnlyAtEnd(g, line)
    ensures OnlyAtEnd(g, Trim(line))
  {
    var i := TrimSlice(line);
    OnlyAtEndInfix(g, line, i, i + |Trim(line)|);
  }

  lemma {:induction false} NonEmptyLinesOnlyAtEnd(g: char, lines: seq<string>)
    requires forall k :: 0 <= k < |lines| ==> OnlyAtEnd(g, lines[k])
    ensures forall k :: 0 <= k < |NonEmptyLines(lines)| ==> OnlyAtEnd(g, NonEmptyLines(lines)[k])
  {
    if lines != [] {
      NonEmptyLinesOnlyAtEnd(g, lines[1..]);
    }
  }

  lemma {:induction false} JoinEndsLines(g: char, lines: seq<string>)
    requires g != '\n'
    requires forall k :: 0 <= k < |lines| ==> OnlyAtEnd(g, lines[k])
    ensures EndsLines(g, Join(lines, '\n'))
  {
    if |lines| == 1 {
      assert OnlyAtEnd(g, lines[0]);
    } else if |lines| > 1 {
      JoinEndsLines(g, lines[1..]);
      var head, tail := lines[0], Join(lines[1..], '\n');
      var t := head + ['\n'] + tail;
      assert OnlyAtEnd(g, head);
      forall i | 0 <= i < |t| && t[i] == g ensures i + 1 == |t| || t[i + 1] == '\n' {
        if i < |head| {
          assert t[i] == head[i];
        } else if i > |head| {
          assert t[i] == tail[i - |head| - 1];
          if i + 1 < |t| {
            assert t[i + 1] == tail[i - |head|];
          }
        }
      }
    }
  }

  lemma NormalizeEndsLines(g: char, t: string)
    requires g != '\n' && EndsLines(g, t)
    ensures EndsLines(g, NormalizeLines(t))
  {
    var lines := Split(t, '\n');
    SplitOnlyAtEnd(g, t);
    forall k | 0 <= k < |lines| ensures OnlyAtEnd(g, TrimLines(lines)[k]) {
      TrimOnlyAtEnd(g, lines[k]);
    }
    NonEmptyLinesOnlyAtEnd(g, TrimLines(lines));
    JoinEndsLines(g, NonEmptyLines(TrimLines(lines)));
  }

  lemma {:induction false} ApplyStepsAppend(a: seq<Step>, b: seq<Step>, s: string)
    requires AllAnchored(a) && AllAnchored(b)
    ensures AllAnchored(a + b)
    ensures ApplySteps(a + b, s) == ApplySteps(b, ApplySteps(a, s))
  {
    assert AllAnchored(a + b) by {
      forall k | 0 <= k < |a + b| ensures Anchored((a + b)[k].pattern) {
        if k < |a| { assert (a + b)[k] == a[k]; } else { assert (a + b)[k] == b[k - |a|]; }
      }
    }
    if a == [] {
      assert a + b == b;
    } else {
      assert (a + b)[1..] == a[1..] + b;
      ApplyStepsAppend(a[1..], b, ReplaceAll(a[0].pattern, s, a[0].replacement));
    }
  }

  /** The cleaned description keeps nothing after a clock or a won sign on
      the same line: the hours and price text is gone from it. */
  lemma CleanedDropsHoursAndPrice(d: string)
    ensures EndsLines(Clock, CleanDescription(d)) && EndsLines(Won, CleanDescription(d))
  {
    var head := CleaningSteps[..9];
    var tail := [Step(HoursLine, ""), Step(PriceLine, "")];
    assert CleaningSteps == head + tail;
    ApplyStepsAppend(head, tail, d);
    var x := ApplySteps(head, d);
    var y := ReplaceAll(HoursLine, x, "");
    var z := ReplaceAll(PriceLine, y, "");
    assert tail[1..] == [Step(PriceLine, "")] && tail[1..][1..] == [];
    assert ApplySteps(tail[1..], y) == ApplySteps([], z) == z;
    assert ApplySteps(tail, x) == z;
    assert HoursLine == [Lit([Clock]), Plus(NotChar('\n'))];
    assert PriceLine == [Lit([Won]), Plus(NotChar('\n'))];
    LineRemovalEndsLines(Clock, x);
    RemovalKeepsEndsLines(PriceLine, Clock, y);
    LineRemovalEndsLines(Won, y);
    EndsLinesTrim(Clock, z);
    EndsLinesTrim(Won, z);
    NormalizeEndsLines(Clock, Trim(z));
    NormalizeEndsLines(Won, Trim(z));
  }
}
