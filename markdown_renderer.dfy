/**
 * The question-text renderer's scanner: it splits the content into text spans
 * and images, in order, using the bracket-free-alt image pattern. The output
 * is the sequence of segments rather than the elements built from them.
 */
module MarkdownRendering {
  import opened Text
  import opened MarkdownScan

  datatype Segment = TextSpan(text: string) | Image(alt: string, src: string)

  /** The alt text used for an image whose alt text is empty. */
  const DefaultAlt: string := "Imagem da questão"

  /** `match[1] || 'Imagem da questão'` */
  function AltOrDefault(alt: string): (r: string)
    ensures r != []
  {
    if alt == "" then DefaultAlt else alt
  }

  /** The segment for one match: its alt text (or the default) and its URL capture. */
  function ImageOf(s: string, m: Match): Segment
    requires InBounds(s, m)
  {
    Image(AltOrDefault(Alt(s, m)), Url(s, m))
  }

  /** A text span for `t`, unless `t.trim()` is empty. */
  function TextIfNotBlank(t: string): seq<Segment> {
    if IsBlank(t) then [] else [TextSpan(t)]
  }

  /**
   * The parts the loop pushes from `lastIndex == from` on: for each match, the
   * text before it (when there is some and it is not blank) and the image;
   * then the text after the last match (when there is some and it is not blank).
   */
  function PartsFrom(s: string, from: nat): seq<Segment>
    requires from <= |s|
    decreases |s| - from
  {
    match FindFrom(BracketFreeAlt, s, from)
    case None => if from < |s| then TextIfNotBlank(s[from..]) else []
    case Some(m) =>
      (if m.start > from then TextIfNotBlank(s[from..m.start]) else []) + [ImageOf(s, m)] + PartsFrom(s, End(m))
  }

  /** What `renderContent` returns: the parts, or the whole content as one span when there are none. */
  function Segments(content: string): seq<Segment> {
    var parts := PartsFrom(content, 0);
    if parts == [] then [TextSpan(content)] else parts
  }

  /** `renderContent`: the `exec` loop pushing text and image parts. */
  method RenderContent(content: string) returns (parts: seq<Segment>)
    ensures parts == Segments(content)
  {
    parts := [];
    var lastIndex := 0;
    var found := FindFrom(BracketFreeAlt, content, lastIndex);
    while found.Some?
      invariant lastIndex <= |content|
      invariant found == FindFrom(BracketFreeAlt, content, lastIndex)
      invariant parts + PartsFrom(content, lastIndex) == PartsFrom(content, 0)
      decreases |content| - lastIndex
    {
      var m := found.value;
      var before: seq<Segment> := [];
      if m.start > lastIndex {
        before := TextIfNotBlank(content[lastIndex..m.start]);
      }
      var image := Image(AltOrDefault(Alt(content, m)), Url(content, m));
      var e := End(m);
      ghost var rest := PartsFrom(content, e);
      assert PartsFrom(content, lastIndex) == before + [image] + rest;
      Regroup(parts, before, [image], rest);
      parts := parts + before + [image];
      lastIndex := e;
      found := FindFrom(BracketFreeAlt, content, lastIndex);
    }
    if lastIndex < |content| {
      parts := parts + TextIfNotBlank(content[lastIndex..]);
    }
    if |parts| == 0 {
      return [TextSpan(content)];
    }
  }

  lemma Regroup<T>(a: seq<T>, b: seq<T>, c: seq<T>, d: seq<T>)
    ensures a + (b + c + d) == (a + b + c) + d
  {
  }

  /** The image segments of the matches, in order. */
  function ImagesOf(s: string, ms: seq<Match>): (r: seq<Segment>)
    requires AllInBounds(s, ms)
    ensures |r| == |ms|
    ensures forall k :: 0 <= k < |ms| ==> r[k] == ImageOf(s, ms[k])
  {
    if ms == [] then [] else [ImageOf(s, ms[0])] + ImagesOf(s, ms[1..])
  }

  /** Each gap as a text span unless blank, with the images between the gaps. */
  function Woven(gaps: seq<string>, images: seq<Segment>): seq<Segment>
    requires |gaps| == |images| + 1
  {
    if images == [] then TextIfNotBlank(gaps[0])
    else TextIfNotBlank(gaps[0]) + [images[0]] + Woven(gaps[1..], images[1..])
  }

  /** The parts are the non-blank gaps as text spans, with an image for each match between them. */
  lemma {:induction false} PartsAreWoven(s: string, from: nat)
    requires from <= |s|
    ensures PartsFrom(s, from) ==
            Woven(Gaps(BracketFreeAlt, s, from), ImagesOf(s, AllMatches(BracketFreeAlt, s, from)))
    decreases |s| - from
  {
    match FindFrom(BracketFreeAlt, s, from)
    case None =>
    case Some(m) =>
      var e := End(m);
      PartsAreWoven(s, e);
      var ms := AllMatches(BracketFreeAlt, s, from);
      assert ms[1..] == AllMatches(BracketFreeAlt, s, e);
      var images := ImagesOf(s, ms);
      assert images[0] == ImageOf(s, m);
      assert images[1..] == ImagesOf(s, ms[1..]);
      var gaps := Gaps(BracketFreeAlt, s, from);
      assert gaps[0] == s[from..m.start] && gaps[1..] == Gaps(BracketFreeAlt, s, e);
  }

  /** The image segments of a sequence of segments, in order. */
  function ImageSegments(parts: seq<Segment>): seq<Segment> {
    if parts == [] then []
    else (if parts[0].Image? then [parts[0]] else []) + ImageSegments(parts[1..])
  }

  /** The texts of the text segments, in order. */
  function Texts(parts: seq<Segment>): seq<string> {
    if parts == [] then []
    else (if parts[0].TextSpan? then [parts[0].text] else []) + Texts(parts[1..])
  }

  /** The strings that are not blank, in order. */
  function NonBlank(xs: seq<string>): seq<string> {
    if xs == [] then [] else (if IsBlank(xs[0]) then [] else [xs[0]]) + NonBlank(xs[1..])
  }

  lemma {:induction false} ImageSegmentsAppend(a: seq<Segment>, b: seq<Segment>)
    ensures ImageSegments(a + b) == ImageSegments(a) + ImageSegments(b)
    decreases |a|
  {
    if a != [] {
      ImageSegmentsAppend(a[1..], b);
      assert (a + b)[0] == a[0];
      assert (a + b)[1..] == a[1..] + b;
      var h := if a[0].Image? then [a[0]] else [];
      assert ImageSegments(a) == h + ImageSegments(a[1..]);
      assert ImageSegments(a + b) == h + ImageSegments(a[1..] + b);
      assert h + (ImageSegments(a[1..]) + ImageSegments(b)) == (h + ImageSegments(a[1..])) + ImageSegments(b);
    } else {
      assert a + b == b;
    }
  }

  lemma {:induction false} TextsAppend(a: seq<Segment>, b: seq<Segment>)
    ensures Texts(a + b) == Texts(a) + Texts(b)
    decreases |a|
  {
    if a != [] {
      TextsAppend(a[1..], b);
      assert (a + b)[0] == a[0];
      assert (a + b)[1..] == a[1..] + b;
      var h := if a[0].TextSpan? then [a[0].text] else [];
      assert Texts(a) == h + Texts(a[1..]);
      assert Texts(a + b) == h + Texts(a[1..] + b);
      assert h + (Texts(a[1..]) + Texts(b)) == (h + Texts(a[1..])) + Texts(b);
    } else {
      assert a + b == b;
    }
  }

  /** Weaving keeps the images, in order, and exactly the non-blank gaps, in order. */
  lemma {:induction false} WovenContents(gaps: seq<string>, images: seq<Segment>)
    requires |gaps| == |images| + 1
    requires forall k :: 0 <= k < |images| ==> images[k].Image?
    ensures ImageSegments(Woven(gaps, images)) == images
    ensures Texts(Woven(gaps, images)) == NonBlank(gaps)
    decreases |images|
  {
    var head := TextIfNotBlank(gaps[0]);
    assert ImageSegments(head) == [];
    assert Texts(head) == NonBlank([gaps[0]]);
    if images == [] {
      assert gaps == [gaps[0]];
    } else {
      var rest := Woven(gaps[1..], images[1..]);
      WovenContents(gaps[1..], images[1..]);
      ImageSegmentsAppend(head + [images[0]], rest);
      ImageSegmentsAppend(head, [images[0]]);
      TextsAppend(head + [images[0]], rest);
      TextsAppend(head, [images[0]]);
      assert images == [images[0]] + images[1..];
      assert NonBlank(gaps) == NonBlank([gaps[0]]) + NonBlank(gaps[1..]);
    }
  }

  /**
   * The image segments are one per match, in order, with the URL capture as
   * source and the alt text, or the default for an empty one, as alt text.
   */
  lemma ImagesInMatchOrder(content: string)
    ensures var ms := AllMatches(BracketFreeAlt, content, 0);
      && |ImageSegments(Segments(content))| == |ms|
      && forall k :: 0 <= k < |ms| ==>
           ImageSegments(Segments(content))[k] ==
             Image(if Alt(content, ms[k]) == "" then DefaultAlt else Alt(content, ms[k]), Url(content, ms[k]))
  {
    var ms := AllMatches(BracketFreeAlt, content, 0);
    PartsAreWoven(content, 0);
    WovenContents(Gaps(BracketFreeAlt, content, 0), ImagesOf(content, ms));
    if PartsFrom(content, 0) == [] {
      assert ImageSegments([TextSpan(content)]) == [];
    }
  }

  /**
   * When the content has an image, the text spans are exactly the gaps around
   * the images that are not blank, in order; together with the images' own
   * text, the gaps tile the content.
   */
  lemma TextsAreNonBlankGaps(content: string)
    requires AllMatches(BracketFreeAlt, content, 0) != []
    ensures Texts(Segments(content)) == NonBlank(Gaps(BracketFreeAlt, content, 0))
    ensures Interleave(Gaps(BracketFreeAlt, content, 0), Raws(content, AllMatches(BracketFreeAlt, content, 0))) == content
  {
    var ms := AllMatches(BracketFreeAlt, content, 0);
    PartsAreWoven(content, 0);
    WovenContents(Gaps(BracketFreeAlt, content, 0), ImagesOf(content, ms));
    assert ImageSegments(PartsFrom(content, 0)) != [];
    Tiling(BracketFreeAlt, content, 0);
    assert content[0..] == content;
  }

  /** Content without an image link is rendered as one text span holding all of it. */
  lemma NoImagesOneSpan(content: string)
    requires AllMatches(BracketFreeAlt, content, 0) == []
    ensures Segments(content) == [TextSpan(content)]
  {
    PartsAreWoven(content, 0);
    Tiling(BracketFreeAlt, content, 0);
    assert content[0..] == content;
  }
}
