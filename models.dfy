/** The value types of the back end: annotation records, their inputs and
    the container manifest (src-tauri/src/models.rs). */
module Models {
  import opened Wrappers

  /** A Rust `u32`. */
  type U32 = x: int | 0 <= x < 0x1_0000_0000

  /** The closed set of annotation kinds. */
  datatype AnnotationType = Highlight | Note | Bookmark

  /** The three strings the `annotations.type` column may hold. */
  const TypeNames: set<string> := {"highlight", "note", "bookmark"}

  /** `AnnotationType::as_str`: the column text of a kind. */
  function AsStr(t: AnnotationType): (s: string)
    ensures s in TypeNames
  {
    match t
    case Highlight => "highlight"
    case Note => "note"
    case Bookmark => "bookmark"
  }

  /** `AnnotationType::from_str`: exact, case-sensitive decoding of the column text. */
  function FromStr(s: string): (r: Result<AnnotationType>)
    ensures r.Ok? <==> s in TypeNames
    ensures r.Err? ==> r.error == "Unknown annotation type: " + s
  {
    if s == "highlight" then Ok(Highlight)
    else if s == "note" then Ok(Note)
    else if s == "bookmark" then Ok(Bookmark)
    else Err("Unknown annotation type: " + s)
  }

  /** Decoding the stored text of a kind gives that kind back. */
  lemma FromStrAsStr(t: AnnotationType)
    ensures FromStr(AsStr(t)) == Ok(t)
  {
  }

  /** Whatever decodes was the stored text of the kind it decodes to. */
  lemma AsStrFromStr(s: string)
    ensures FromStr(s).Ok? ==> AsStr(FromStr(s).value) == s
  {
  }

  /** Distinct kinds are stored as distinct strings. */
  lemma AsStrInjective(a: AnnotationType, b: AnnotationType)
    ensures AsStr(a) == AsStr(b) <==> a == b
  {
    if AsStr(a) == AsStr(b) {
      FromStrAsStr(a);
      FromStrAsStr(b);
    }
  }

  /** An axis-aligned rectangle in page coordinates normalised to zoom 1.0.
      The source's `f64` fields stand here as `real`; nothing computes on them. */
  datatype Rect = Rect(x: real, y: real, width: real, height: real)

  /** Where an annotation sits on its page. */
  datatype PositionData = PositionData(
    rects: seq<Rect>,
    pageWidth: real,
    pageHeight: real,
    selectedText: Option<string>,
    startOffset: Option<U32>,
    endOffset: Option<U32>)

  /** An annotation record as the back end returns it. */
  datatype Annotation = Annotation(
    id: string,
    annotationType: AnnotationType,
    pageNumber: U32,
    color: Option<string>,
    content: Option<string>,
    positionData: Option<PositionData>,
    createdAt: string,
    updatedAt: string)

  /** What the caller supplies to create an annotation. */
  datatype CreateAnnotationInput = CreateAnnotationInput(
    annotationType: AnnotationType,
    pageNumber: U32,
    color: Option<string>,
    content: Option<string>,
    positionData: Option<PositionData>)

  /** What the caller supplies to update one: there is no kind and no page
      field, so an update can never move an annotation or change its kind. */
  datatype UpdateAnnotationInput = UpdateAnnotationInput(
    id: string,
    color: Option<string>,
    content: Option<string>,
    positionData: Option<PositionData>)

  /** The manifest stored as `manifest.json` in a container. */
  datatype Manifest = Manifest(version: string, format: string, createdAt: string)

  /** `RrManifest::default()`, with the clock reading passed in as `now`. */
  function DefaultManifest(now: string): (m: Manifest)
    ensures m.version == "1.0.0" && m.format == "research-reader"
    ensures m.createdAt == now
  {
    Manifest("1.0.0", "research-reader", now)
  }

  /** `serde_json::to_string_pretty` of a manifest: two-space indentation,
      fields in declaration order. */
  function ManifestJson(m: Manifest): (r: string)
    ensures |r| >= 2 && r[0] == '{' && r[|r| - 1] == '}'
  {
    "{\n  \"version\": \"" + m.version + "\",\n  \"format\": \"" + m.format
      + "\",\n  \"created_at\": \"" + m.createdAt + "\"\n}"
  }

  /** Text that needs no escaping inside a JSON string. */
  predicate PlainJsonText(s: string) {
    forall i :: 0 <= i < |s| ==> s[i] != '"' && s[i] != '\\'
  }

  /** The closing quote after a plain field value marks where the value ends. */
  lemma SplitAtQuote(a: string, x: string, b: string, y: string)
    requires PlainJsonText(a) && PlainJsonText(b)
    requires |x| > 0 && x[0] == '"' && |y| > 0 && y[0] == '"'
    requires a + x == b + y
    ensures a == b && x == y
  {
    QuoteNotInside(a, x, b, y);
    QuoteNotInside(b, y, a, x);
    assert a == (a + x)[..|a|] && b == (b + y)[..|b|];
    assert x == (a + x)[|a|..] && y == (b + y)[|b|..];
  }

  lemma QuoteNotInside(a: string, x: string, b: string, y: string)
    requires PlainJsonText(b) && |x| > 0 && x[0] == '"'
    requires a + x == b + y
    ensures |b| <= |a|
  {
    assert (a + x)[|a|] == '"';
  }

  /** Three plain values, each followed by a separator that starts with a
      quote, are found again from the text they make up. */
  lemma ThreeFields(lead: string, sep1: string, sep2: string, tail: string,
                    a1: string, a2: string, a3: string, b1: string, b2: string, b3: string)
    requires PlainJsonText(a1) && PlainJsonText(a2) && PlainJsonText(a3)
    requires PlainJsonText(b1) && PlainJsonText(b2) && PlainJsonText(b3)
    requires |sep1| > 0 && sep1[0] == '"' && |sep2| > 0 && sep2[0] == '"' && |tail| > 0 && tail[0] == '"'
    requires lead + a1 + sep1 + a2 + sep2 + a3 + tail == lead + b1 + sep1 + b2 + sep2 + b3 + tail
    ensures a1 == b1 && a2 == b2 && a3 == b3
  {
    var ra := a1 + (sep1 + (a2 + (sep2 + (a3 + tail))));
    var rb := b1 + (sep1 + (b2 + (sep2 + (b3 + tail))));
    assert lead + a1 + sep1 + a2 + sep2 + a3 + tail == lead + ra;
    assert lead + b1 + sep1 + b2 + sep2 + b3 + tail == lead + rb;
    assert ra == (lead + ra)[|lead|..] && rb == (lead + rb)[|lead|..];
    SplitAtQuote(a1, sep1 + (a2 + (sep2 + (a3 + tail))), b1, sep1 + (b2 + (sep2 + (b3 + tail))));
    var sa := a2 + (sep2 + (a3 + tail));
    var sb := b2 + (sep2 + (b3 + tail));
    assert sa == (sep1 + sa)[|sep1|..] && sb == (sep1 + sb)[|sep1|..];
    SplitAtQuote(a2, sep2 + (a3 + tail), b2, sep2 + (b3 + tail));
    assert a3 + tail == (sep2 + (a3 + tail))[|sep2|..] && b3 + tail == (sep2 + (b3 + tail))[|sep2|..];
    SplitAtQuote(a3, tail, b3, tail);
  }

  /** Two manifests with plain field values are written as the same text
      only if they are the same manifest: the text determines every field. */
  lemma ManifestJsonInjective(m: Manifest, n: Manifest)
    requires PlainJsonText(m.version) && PlainJsonText(m.format) && PlainJsonText(m.createdAt)
    requires PlainJsonText(n.version) && PlainJsonText(n.format) && PlainJsonText(n.createdAt)
    ensures ManifestJson(m) == ManifestJson(n) <==> m == n
  {
    if ManifestJson(m) == ManifestJson(n) {
      ThreeFields("{\n  \"version\": \"", "\",\n  \"format\": \"", "\",\n  \"created_at\": \"", "\"\n}",
                  m.version, m.format, m.createdAt, n.version, n.format, n.createdAt);
    }
  }
}
